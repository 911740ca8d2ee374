/**
 The `COMPOSE_FILE` chain in `.env`: the orchestrator appends and removes the override file with a
 multi-line regex, and the stack-control service reads the chain back with its own line parser.
 */
module ComposeEnv {
  import opened Options
  import opened Splitting
  import opened Text

  const KEY := "COMPOSE_FILE"
  const OVERRIDE := "docker-compose.override.yml"
  const DEFAULT := "docker-compose.yml"

  /** `[p.strip() for p in value.split(":") if p.strip()]`. */
  function Parts(value: string): seq<string> {
    Stripped(SplitOn(value, ':'))
  }

  function Stripped(pieces: seq<string>): seq<string> {
    if pieces == [] then []
    else if Strip(pieces[0]) == "" then Stripped(pieces[1..])
    else [Strip(pieces[0])] + Stripped(pieces[1..])
  }

  function Without(parts: seq<string>, drop: string): seq<string> {
    if parts == [] then []
    else if parts[0] == drop then Without(parts[1..], drop)
    else [parts[0]] + Without(parts[1..], drop)
  }

  // ---------- the regex of the orchestrator ----------

  function SkipBlanks(s: string): string {
    if s != "" && (s[0] == ' ' || s[0] == '\t') then SkipBlanks(s[1..]) else s
  }

  /** Group 1 of `^[ \t]*COMPOSE_FILE[ \t]*=(.*)$` on one line. */
  function Assigned(line: string): Option<string> {
    var name := SkipBlanks(line);
    if KEY <= name then
      var rest := SkipBlanks(name[|KEY|..]);
      if rest != "" && rest[0] == '=' then Some(rest[1..]) else None
    else None
  }

  /** Index of the first line the regex matches, or the number of lines. */
  function FirstAssigned(lines: seq<string>): (i: nat)
    ensures i <= |lines| && forall k | 0 <= k < i :: Assigned(lines[k]).None?
    ensures i < |lines| ==> Assigned(lines[i]).Some?
  {
    if lines == [] || Assigned(lines[0]).Some? then 0 else 1 + FirstAssigned(lines[1..])
  }

  /**
   Outcome of an edit. The new value is handed to `re.sub` as a template; with a backslash in it the
   result is not the literal text, which `Escaped` stands for.
   */
  datatype Edit = Unchanged | Changed(text: string) | Escaped

  function AssignmentLine(value: string): string {
    KEY + "=" + value
  }

  /** `pattern.sub("COMPOSE_FILE=" + value, content, count=1)` at line `i`. */
  function Substitute(lines: seq<string>, i: nat, value: string): Edit
    requires i < |lines|
  {
    if '\\' in value then Escaped else Changed(Join("\n", lines[i := AssignmentLine(value)]))
  }

  function Chain(content: string): Edit {
    var lines := SplitOn(content, '\n');
    var i := FirstAssigned(lines);
    if i == |lines| then
      Changed(Terminated(content) + AssignmentLine(DEFAULT + ":" + OVERRIDE) + "\n")
    else
      var value := Strip(Assigned(lines[i]).value);
      if OVERRIDE in Parts(value) then Unchanged
      else Substitute(lines, i, value + ":" + OVERRIDE)
  }

  /** The text with a newline added when it is not empty and does not end in one. */
  function Terminated(content: string): string {
    if content != "" && content[|content| - 1] != '\n' then content + "\n" else content
  }

  function Unchain(content: string): Edit {
    var lines := SplitOn(content, '\n');
    var i := FirstAssigned(lines);
    if i == |lines| then Unchanged
    else
      var parts := Parts(Strip(Assigned(lines[i]).value));
      if OVERRIDE !in parts then Unchanged
      else
        var kept := Without(parts, OVERRIDE);
        Substitute(lines, i, if kept == [] then DEFAULT else Join(":", kept))
  }

  // ---------- the reader in stack-control ----------

  /** The value stack-control sees on one line. */
  function Read(line: string): Option<string> {
    var stripped := Strip(line);
    var head := KEY + "=";
    if head <= stripped then Some(Strip(stripped[|head|..])) else None
  }

  predicate Seen(line: string) {
    Read(line).Some? && Read(line).value != ""
  }

  function FirstRead(lines: seq<string>, fallback: string): string {
    if lines == [] then fallback
    else if Seen(lines[0]) then Read(lines[0]).value
    else FirstRead(lines[1..], fallback)
  }

  method CurrentComposeFile(env: Option<string>, fallback: string) returns (value: string)
    ensures value == if env.None? then fallback else FirstRead(Splitlines(env.value), fallback)
  {
    hide Read;
    if env.None? {
      return fallback;
    }
    var lines := Splitlines(env.value);
    for i := 0 to |lines|
      invariant FirstRead(lines[i..], fallback) == FirstRead(lines, fallback)
    {
      assert lines[i..][1..] == lines[i + 1..];
      if Seen(lines[i]) {
        return Read(lines[i]).value;
      }
    }
    return fallback;
  }

  /** `-f` before every file. */
  function FileFlags(files: seq<string>): seq<string> {
    if files == [] then [] else ["-f", files[0]] + FileFlags(files[1..])
  }

  method ComposeCmd(env: Option<string>, fallback: string, project: string, args: seq<string>)
    returns (cmd: seq<string>)
    ensures var value := if env.None? then fallback else FirstRead(Splitlines(env.value), fallback);
            cmd == ["docker", "compose"] + FileFlags(Parts(value))
                 + (if project == "" then [] else ["-p", project]) + args
  {
    hide Strip, SplitOn, FirstRead, Splitlines;
    cmd := ["docker", "compose"];
    var value := CurrentComposeFile(env, fallback);
    var pieces := SplitOn(value, ':');
    for i := 0 to |pieces|
      invariant cmd + FileFlags(Stripped(pieces[i..])) == ["docker", "compose"] + FileFlags(Parts(value))
    {
      assert pieces[i..][1..] == pieces[i + 1..];
      var file := Strip(pieces[i]);
      if file != "" {
        cmd := cmd + ["-f", file];
      }
    }
    if project != "" {
      cmd := cmd + ["-p", project];
    }
    cmd := cmd + args;
  }
}
