/**
 The egress allow files: declared hosts are validated and normalised, printed one per line, and the
 printed file is parsed again and compared with the declaration.
 */
module Egress {
  import opened Options
  import opened Splitting
  import opened Text

  const MAX_ENDPOINTS := 32
  const MAX_HOST := 253

  datatype Refusal = TooManyHosts | EmptyEntry | NonAscii | Colon | Wildcard | TooLong | BadHost

  datatype Normalised = Hosts(list: seq<string>) | Refused(why: Refusal)

  /**
   `str.lower` as far as it matters: apart from the Kelvin sign, which becomes `k`, a character
   outside ASCII lowers to text outside ASCII, and such an entry is refused.
   */
  function LowerChar(c: char): char {
    if 'A' <= c <= 'Z' then ['a', 'b', 'c', 'd', 'e', 'f', 'g', 'h', 'i', 'j', 'k', 'l', 'm', 'n', 'o', 'p', 'q',
                             'r', 's', 't', 'u', 'v', 'w', 'x', 'y', 'z'][c as int - 'A' as int]
    else if c == '\U{212A}' then 'k'
    else c
  }

  function Lower(s: string): (r: string)
    ensures |r| == |s| && forall i | 0 <= i < |s| :: r[i] == LowerChar(s[i])
  {
    if s == "" then "" else Lower(s[..|s| - 1]) + [LowerChar(s[|s| - 1])]
  }

  predicate IsAlnum(c: char) {
    'a' <= c <= 'z' || '0' <= c <= '9'
  }

  /** The label regex without its anchors. */
  predicate IsLabel(name: string) {
    && 1 <= |name| <= 63
    && IsAlnum(name[0]) && IsAlnum(name[|name| - 1])
    && forall i | 0 <= i < |name| :: IsAlnum(name[i]) || name[i] == '-'
  }

  /** The label regex as `match` applies it: its `$` also matches before a newline that ends the label. */
  predicate LabelMatches(name: string) {
    IsLabel(name) || (name != "" && name[|name| - 1] == '\n' && IsLabel(name[..|name| - 1]))
  }

  predicate IsBareHost(host: string) {
    host != "" && forall name <- SplitOn(host, '.') :: LabelMatches(name)
  }

  predicate IsAscii(s: string) {
    forall i | 0 <= i < |s| :: s[i] < '\U{0080}'
  }

  function HostOf(entry: string): string {
    Lower(Strip(entry))
  }

  /** The first check a host fails. */
  function Fault(host: string): Option<Refusal> {
    if host == "" then Some(EmptyEntry)
    else if !IsAscii(host) then Some(NonAscii)
    else if ':' in host then Some(Colon)
    else if '*' in host then Some(Wildcard)
    else if |host| > MAX_HOST then Some(TooLong)
    else if !IsBareHost(host) then Some(BadHost)
    else None
  }

  function Collect(raw: seq<string>, out: seq<string>): Normalised {
    if raw == [] then Hosts(out)
    else
      var host := HostOf(raw[0]);
      match Fault(host)
      case Some(why) => Refused(why)
      case None => Collect(raw[1..], if host in out then out else out + [host])
  }

  function Normalise(raw: seq<string>): Normalised {
    if |raw| > MAX_ENDPOINTS then Refused(TooManyHosts) else Collect(raw, [])
  }

  method NormaliseExternalEndpoints(raw: seq<string>) returns (r: Normalised)
    ensures r == Normalise(raw)
  {
    hide HostOf, Fault;
    if |raw| > MAX_ENDPOINTS {
      return Refused(TooManyHosts);
    }
    var seen: set<string> := {};
    var out: seq<string> := [];
    for i := 0 to |raw|
      invariant forall host :: host in seen <==> host in out
      invariant Collect(raw[i..], out) == Collect(raw, [])
    {
      var host := HostOf(raw[i]);
      assert raw[i..][0] == raw[i] && raw[i..][1..] == raw[i + 1..];
      var fault := Fault(host);
      if fault.Some? {
        return Refused(fault.value);
      }
      if host !in seen {
        seen := seen + {host};
        out := out + [host];
      }
    }
    r := Hosts(out);
  }

  // ---------- the allow file ----------

  /** `CAPABILITY_ID_PATTERN.fullmatch`. */
  predicate IsGrantableId(id: string) {
    && 1 <= |id| <= 43 && IsAlnum(id[0])
    && forall i | 0 <= i < |id| :: IsAlnum(id[i]) || id[i] in "._-"
  }

  // The header lines are joined from phrases: the verifier knows the characters of a short literal only.
  const TITLE := "# LUM-618 egress allowlist" + " for capability id: "
  const SCRIPT := "scripts/" + "gen_capability_egress_acl.py"
  const NOTE := "# One bare host / IPv4" + " per line. Generated by " + SCRIPT
  const ADVICE := " regenerate when" + " the manifest's" + " external_endpoints change."
  const WARNING := "# \U{2014} do not hand-edit;" + ADVICE

  function Headers(id: string): seq<string> {
    [TITLE + id, NOTE, WARNING]
  }

  function AllowText(id: string, hosts: seq<string>): string {
    Join("\n", Headers(id) + hosts + [""])
  }

  /** `line.split("#", 1)[0].strip()`. */
  function HostPart(line: string): string {
    Strip(SplitOn(line, '#')[0])
  }

  function HostParts(lines: seq<string>): seq<string> {
    if lines == [] then []
    else if HostPart(lines[0]) == "" then HostParts(lines[1..])
    else [HostPart(lines[0])] + HostParts(lines[1..])
  }

  function ReadAllow(text: string): Normalised {
    Normalise(HostParts(Splitlines(text)))
  }

  method HostsFromAllowFile(text: string) returns (r: Normalised)
    ensures r == ReadAllow(text)
  {
    hide HostPart, Normalise, Splitlines;
    var lines := Splitlines(text);
    var raw := [];
    for i := 0 to |lines|
      invariant raw + HostParts(lines[i..]) == HostParts(lines)
    {
      assert lines[i..][0] == lines[i] && lines[i..][1..] == lines[i + 1..];
      var host := HostPart(lines[i]);
      if host != "" {
        raw := raw + [host];
      }
    }
    assert raw == HostParts(lines);
    r := NormaliseExternalEndpoints(raw);
  }

  datatype Checked = Matches | Diverges | Missing | Raised

  ghost predicate SameHosts(a: seq<string>, b: seq<string>) {
    forall host :: host in a <==> host in b
  }

  lemma SameSets(a: seq<string>, b: seq<string>)
    ensures (set host | host in a) == (set host | host in b) <==> SameHosts(a, b)
  {
    var x, y := set host | host in a, set host | host in b;
    assert forall host :: (host in x <==> host in a) && (host in y <==> host in b);
  }

  /** The directory of allow files, by capability id. */
  class AllowDir {
    var files: map<string, string>

    constructor ()
      ensures files == map[]
    {
      files := map[];
    }

    /** Writes the file of one capability, or refuses and writes nothing. */
    method Generate(id: string, raw: seq<string>) returns (ok: bool)
      modifies this
      ensures ok <==> IsGrantableId(id) && Normalise(raw).Hosts?
      ensures ok ==> files == old(files)[id := AllowText(id, Normalise(raw).list)]
      ensures !ok ==> files == old(files)
    {
      if !IsGrantableId(id) {
        return false;
      }
      var hosts := NormaliseExternalEndpoints(raw);
      if hosts.Refused? {
        return false;
      }
      files := files[id := AllowText(id, hosts.list)];
      ok := true;
    }

    /** Compares a declaration with the file of its capability. */
    method Check(id: string, raw: seq<string>) returns (r: Checked)
      ensures r == Raised <==>
              || !IsGrantableId(id) || Normalise(raw).Refused?
              || (id in files && ReadAllow(files[id]).Refused?)
      ensures r == Missing <==> IsGrantableId(id) && Normalise(raw).Hosts? && id !in files
      ensures r == Matches <==>
              && IsGrantableId(id) && Normalise(raw).Hosts? && id in files && ReadAllow(files[id]).Hosts?
              && SameHosts(Normalise(raw).list, ReadAllow(files[id]).list)
    {
      hide Normalise, ReadAllow;
      if !IsGrantableId(id) {
        return Raised;
      }
      var declared := NormaliseExternalEndpoints(raw);
      if declared.Refused? {
        return Raised;
      }
      if id !in files {
        return Missing;
      }
      var written := HostsFromAllowFile(files[id]);
      if written.Refused? {
        return Raised;
      }
      var expected := set host | host in declared.list;
      var actual := set host | host in written.list;
      SameSets(declared.list, written.list);
      r := if expected == actual then Matches else Diverges;
    }
  }
}
