/**
 Managed ingest binds in `docker-compose.override.yml`: a marker-delimited block is rendered,
 spliced into the operator's text, stripped again and validated, all on raw text.
 */
module IngestBinds {
  import opened BindSources
  import opened Text

  const BEGIN := "# lumogis:ingest-binds-begin"
  const END := "# lumogis:ingest-binds-end"

  /** The scaffold below its first line. */
  const SCAFFOLD_TAIL := "services:\n  orchestrator:\n    volumes:\n"
  // Its first line, joined from phrases: the verifier knows the characters of a short literal only.
  const TITLE_START := "# lumogis: auto-generated"
  const TITLE_MIDDLE := " ingest bind mounts \U{2014}"
  const TITLE_STOP := " edit outside markers only"
  const SCAFFOLD_TITLE := TITLE_START + TITLE_MIDDLE + TITLE_STOP
  const SCAFFOLD := SCAFFOLD_TITLE + "\n" + SCAFFOLD_TAIL

  // ---------- rendering ----------

  /** Volume entries of every path but the first, numbered from 1. */
  function ExtraVolumes(paths: seq<string>, windows: bool): (r: seq<string>)
    ensures |r| == if paths == [] then 0 else |paths| - 1
  {
    if paths == [] then []
    else seq(|paths| - 1, i requires 0 <= i < |paths| - 1 => VolumeLine(paths[i + 1], i + 1, windows))
  }

  method BuildExtraVolumeLines(paths: seq<string>, windows: bool) returns (lines: seq<string>)
    ensures lines == ExtraVolumes(paths, windows)
    ensures |lines| == (if paths == [] then 0 else |paths| - 1)
    ensures forall k | 1 <= k < |paths| :: Mounts(lines[k - 1], paths[k], k, windows)
  {
    hide BindSource, VolumeLine, Mounts;
    lines := [];
    for idx := 1 to if paths == [] then 1 else |paths|
      invariant |lines| == idx - 1
      invariant forall k | 0 <= k < |lines| :: lines[k] == VolumeLine(paths[k + 1], k + 1, windows)
    {
      var line := VolumeLine(paths[idx], idx, windows);
      lines := lines + [line];
    }
    forall k | 1 <= k < |paths|
      ensures Mounts(lines[k - 1], paths[k], k, windows)
    {
      assert lines[k - 1] == VolumeLine(paths[k], k, windows);
      LineMounts(paths[k], k, windows);
    }
  }

  /** The volume entries as YAML list items. */
  function Bullets(volumes: seq<string>): (r: seq<string>)
    ensures |r| == |volumes|
  {
    seq(|volumes|, i requires 0 <= i < |volumes| => "      - " + volumes[i])
  }

  ghost predicate ItemMounts(item: string, path: string, index: nat, windows: bool) {
    exists line | Mounts(line, path, index, windows) :: item == "      - " + line
  }

  /** One list item for every path but the first, with the mount of that path. */
  ghost predicate MountItems(items: seq<string>, paths: seq<string>, windows: bool) {
    && |items| == |paths| - 1
    && forall k | 1 <= k < |paths| :: ItemMounts(items[k - 1], paths[k], k, windows)
  }

  lemma BulletsMount(paths: seq<string>, windows: bool)
    requires paths != []
    ensures MountItems(Bullets(ExtraVolumes(paths, windows)), paths, windows)
  {
    hide VolumeLine, Mounts;
    var items := Bullets(ExtraVolumes(paths, windows));
    forall k | 1 <= k < |paths|
      ensures ItemMounts(items[k - 1], paths[k], k, windows)
    {
      LineMounts(paths[k], k, windows);
      assert items[k - 1] == "      - " + VolumeLine(paths[k], k, windows);
    }
  }

  /** What stands between the two markers: the rest of the BEGIN line and the list items. */
  function BlockBody(volumes: seq<string>): string {
    "\n" + Lines(Bullets(volumes))
  }

  function ManagedBlock(paths: seq<string>, windows: bool): string {
    var volumes := ExtraVolumes(paths, windows);
    if volumes == [] then "" else BEGIN + BlockBody(volumes) + END + "\n"
  }

  lemma BlockText(begin: string, items: seq<string>, end: string)
    ensures Join("\n", [begin] + items + [end]) + "\n" == begin + ("\n" + Lines(items)) + end + "\n"
  {
    JoinLines([begin] + items + [end]);
    LinesConcat([begin] + items, [end]);
    assert Lines([end]) == end + "\n" by {
      assert [end][1..] == [];
    }
    assert Lines([begin] + items) == begin + "\n" + Lines(items) by {
      assert ([begin] + items)[1..] == items;
    }
  }

  method RenderManagedVolumesBlock(paths: seq<string>, windows: bool) returns (block: string)
    ensures block == ManagedBlock(paths, windows)
    ensures |paths| < 2 ==> block == ""
    ensures |paths| >= 2 ==> exists items | MountItems(items, paths, windows) ::
              block == "# lumogis:ingest-binds-begin" + "\n" + Lines(items) + "# lumogis:ingest-binds-end" + "\n"
  {
    hide BindSource, VolumeLine, Mounts, MountItems;
    var volumes := BuildExtraVolumeLines(paths, windows);
    if volumes == [] {
      return "";
    }
    var parts := [BEGIN];
    for i := 0 to |volumes|
      invariant |parts| == i + 1 && parts[0] == BEGIN
      invariant forall k | 0 <= k < i :: parts[k + 1] == Bullets(volumes)[k]
    {
      parts := parts + ["      - " + volumes[i]];
    }
    assert parts == [BEGIN] + Bullets(volumes);
    block := Join("\n", parts + [END]) + "\n";
    BulletsMount(paths, windows);
    assert BEGIN + ("\n" + Lines(Bullets(volumes))) == BEGIN + "\n" + Lines(Bullets(volumes));
    BlockText(BEGIN, Bullets(volumes), END);
  }

  // ---------- markers in a text ----------

  /** Both markers are there and the first END stands after the first BEGIN. */
  predicate HasBlock(text: string) {
    Find(text, BEGIN) != -1 && Find(text, END) > Find(text, BEGIN)
  }

  predicate MarkerFree(text: string) {
    Find(text, BEGIN) == -1 && Find(text, END) == -1
  }

  /** One past the newline that ends the line holding offset `i`, or the end of the text. */
  function LineEnd(text: string, i: nat): (r: nat)
    requires i <= |text|
    ensures i <= r <= |text|
  {
    var newline := Find(text, "\n", i);
    if newline == -1 then |text| else newline + 1
  }

  /** The text in front of the block. */
  function Before(text: string): string
    requires HasBlock(text)
  {
    text[..Find(text, BEGIN)]
  }

  /** The text after the line that holds the END marker. */
  function After(text: string): string
    requires HasBlock(text)
  {
    text[LineEnd(text, Find(text, END))..]
  }

  // ---------- merge and strip ----------

  /** Offsets of one match of the multi-line regex `^\s*keyword\s*$`. */
  predicate KeywordLineAt(text: string, start: nat, word: nat, stop: nat, keyword: string) {
    && start <= word && word + |keyword| <= stop <= |text|
    && (start == 0 || text[start - 1] == '\n')
    && SpaceIn(text, start, word)
    && At(text, word, keyword)
    && SpaceIn(text, word + |keyword|, stop)
    && (stop == |text| || text[stop] == '\n')
  }

  /** Does the multi-line regex `^\s*keyword\s*$` match anywhere? */
  predicate HasKeywordLine(text: string, keyword: string) {
    exists start: nat, word: nat, stop: nat | start <= |text| && word <= |text| && stop <= |text| ::
      KeywordLineAt(text, start, word, stop, keyword)
  }

  const SERVICES := "services:"
  const ORCHESTRATOR := "orchestrator:"
  const VOLUMES := "volumes:"

  predicate HasVolumesSection(text: string) {
    HasKeywordLine(text, SERVICES) && HasKeywordLine(text, ORCHESTRATOR) && HasKeywordLine(text, VOLUMES)
  }

  /** `s.split("\n", 1)[-1]`. */
  function AfterFirstLine(s: string): string {
    var newline := Find(s, "\n");
    if newline == -1 then s else s[newline + 1..]
  }

  function StripManagedBlock(text: string): string {
    var begin := Find(text, BEGIN);
    var end := Find(text, END);
    if begin == -1 || end == -1 || end < begin then text
    else
      var outside := text[..LineStart(text, begin)] + text[LineEnd(text, end)..];
      Rstrip(outside) + if Blank(outside) then "" else "\n"
  }

  /** The override text with the managed block for `paths`. A missing file is the empty text. */
  function Merge(existing: string, paths: seq<string>, windows: bool): string {
    var managed := ManagedBlock(paths, windows);
    if managed == "" then
      if Blank(existing) then "" else StripManagedBlock(existing)
    else if Blank(existing) then SCAFFOLD + managed
    else
      var begin := Find(existing, BEGIN);
      var end := Find(existing, END);
      if begin != -1 && end != -1 && end > begin then
        existing[..begin] + managed + existing[LineEnd(existing, end)..]
      else if HasKeywordLine(existing, SERVICES) then
        if HasKeywordLine(existing, ORCHESTRATOR) && HasKeywordLine(existing, VOLUMES) then
          Rstrip(existing) + "\n" + managed
        else
          Rstrip(existing) + "\n" + AfterFirstLine(SCAFFOLD + managed)
      else
        SCAFFOLD + managed
  }

  // ---------- validation ----------

  datatype Verdict =
    | Accepted
    | UnexpectedMarkers
    | MissingMarkers
    | WrongCount(found: nat)
    | BadTarget(line: nat)

  predicate IsBindLine(line: string) {
    "- " <= Strip(line) && ':' in line
  }

  function BindLines(lines: seq<string>): (r: seq<string>)
    ensures |r| <= |lines|
    ensures forall line <- r :: IsBindLine(line)
  {
    if lines == [] then []
    else if IsBindLine(lines[0]) then [lines[0]] + BindLines(lines[1..])
    else BindLines(lines[1..])
  }

  /** `s.replace(" ", "")`. */
  function WithoutBlanks(s: string): string {
    if s == "" then ""
    else if s[0] == ' ' then WithoutBlanks(s[1..])
    else [s[0]] + WithoutBlanks(s[1..])
  }

  predicate HasTarget(line: string, index: nat) {
    Contains(WithoutBlanks(line), Target(index))
  }

  /** The verdict of the structural checks that precede the YAML parse. */
  function Structure(text: string, expected: int): Verdict {
    var begin := Find(text, BEGIN);
    var end := Find(text, END);
    if expected <= 0 then
      if begin != -1 || end != -1 then UnexpectedMarkers else Accepted
    else if begin == -1 || end == -1 || end < begin then MissingMarkers
    else
      var found := BindLines(Splitlines(text[begin..end]));
      if |found| != expected then WrongCount(|found|) else TargetsFrom(found, 0)
  }

  /** Line `i` (counted from 1) must mount the `i`-th container path. */
  function TargetsFrom(found: seq<string>, i: nat): Verdict
    requires i <= |found|
    decreases |found| - i
  {
    if i == |found| then Accepted
    else if !HasTarget(found[i], i + 1) then BadTarget(i + 1)
    else TargetsFrom(found, i + 1)
  }

  method CollectBindLines(lines: seq<string>) returns (found: seq<string>)
    ensures found == BindLines(lines)
  {
    hide IsBindLine;
    found := [];
    for i := 0 to |lines|
      invariant found + BindLines(lines[i..]) == BindLines(lines)
    {
      assert lines[i..][1..] == lines[i + 1..];
      if IsBindLine(lines[i]) {
        found := found + [lines[i]];
      }
    }
  }

  method ValidateOverrideStructure(text: string, expected: int) returns (verdict: Verdict)
    ensures verdict == Structure(text, expected)
  {
    hide IsBindLine, HasTarget, BEGIN, END, Splitlines;
    var begin, end := Find(text, BEGIN), Find(text, END);
    if expected <= 0 {
      return if begin != -1 || end != -1 then UnexpectedMarkers else Accepted;
    }
    if begin == -1 || end == -1 || end < begin {
      return MissingMarkers;
    }
    var found := CollectBindLines(Splitlines(text[begin..end]));
    if |found| != expected {
      return WrongCount(|found|);
    }
    for i := 0 to |found|
      invariant TargetsFrom(found, i) == TargetsFrom(found, 0)
    {
      if !HasTarget(found[i], i + 1) {
        return BadTarget(i + 1);
      }
    }
    return Accepted;
  }
}
