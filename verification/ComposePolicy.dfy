/**
 Pass A of the compose policy check: every compose file reachable through `include` is scanned for
 services outside the allowlist that use `env_file` or set a forbidden key.
 */
module ComposePolicy {
  import opened Text

  type Path = string

  datatype EnvItem = Str(text: string) | NotAString

  datatype Environment =
    | NoEnvironment
    | Mapping(keys: seq<string>)
    | Items(items: seq<EnvItem>)
    | UnhandledShape

  /** A service body; `NotAMapping` bodies are skipped. */
  datatype Body = NotAMapping | Body(hasEnvFile: bool, environment: Environment)

  datatype Service = Service(name: string, body: Body)

  datatype Services = NoServices | BadServices | Services(list: seq<Service>)

  /** An include entry, resolved against the directory of its file. */
  datatype IncludeEntry = Target(path: Path) | UnsupportedEntry

  datatype Include = NoInclude | NotAList | Entries(list: seq<IncludeEntry>)

  datatype Doc = EmptyDoc | NotADict | Doc(services: Services, includes: Include)

  datatype File = Unreadable | File(docs: seq<Doc>)

  type FileSystem = map<Path, File>

  datatype Violation = EnvFile(service: string) | ForbiddenKey(service: string, key: string)

  // ---------- one document ----------

  const FORBIDDEN_EXACT: set<string> := {
    "QDRANT_URL", "POSTGRES_USER", "POSTGRES_PASSWORD", "POSTGRES_DB",
    "POSTGRES_HOST", "POSTGRES_PORT", "POSTGRES_URL", "DATABASE_URL"
  }
  const FORBIDDEN_PREFIX := "AP_POSTGRES_"

  predicate IsForbiddenKey(key: string) {
    key in FORBIDDEN_EXACT || FORBIDDEN_PREFIX <= key
  }

  /** `item.split("=", 1)[0].strip()`, or the whole item stripped. */
  function ItemKey(text: string): string {
    var equals := Find(text, "=");
    Strip(if equals == -1 then text else text[..equals])
  }

  function ItemKeys(items: seq<EnvItem>): seq<string> {
    if items == [] then []
    else if items[0].NotAString? then ItemKeys(items[1..])
    else [ItemKey(items[0].text)] + ItemKeys(items[1..])
  }

  function EnvKeys(environment: Environment): seq<string> {
    match environment
    case Mapping(keys) => keys
    case Items(items) => ItemKeys(items)
    case _ => []
  }

  function KeyViolations(service: string, keys: seq<string>): seq<Violation> {
    if keys == [] then []
    else if IsForbiddenKey(keys[0]) then [ForbiddenKey(service, keys[0])] + KeyViolations(service, keys[1..])
    else KeyViolations(service, keys[1..])
  }

  predicate Scanned(service: Service, allowlist: set<string>) {
    service.body.Body? && service.name !in allowlist
  }

  function ServiceViolations(service: Service, allowlist: set<string>): seq<Violation> {
    if !Scanned(service, allowlist) then []
    else
      (if service.body.hasEnvFile then [EnvFile(service.name)] else [])
      + KeyViolations(service.name, EnvKeys(service.body.environment))
  }

  function ListViolations(services: seq<Service>, allowlist: set<string>): seq<Violation> {
    if services == [] then []
    else ServiceViolations(services[0], allowlist) + ListViolations(services[1..], allowlist)
  }

  function DocViolations(doc: Doc, allowlist: set<string>): seq<Violation> {
    if doc.Doc? && doc.services.Services? then ListViolations(doc.services.list, allowlist) else []
  }

  /** What a report line claims about a document. */
  ghost predicate Justified(v: Violation, doc: Doc, allowlist: set<string>) {
    doc.Doc? && doc.services.Services? && exists s <- doc.services.list :: JustifiedBy(v, s, allowlist)
  }

  ghost predicate JustifiedBy(v: Violation, service: Service, allowlist: set<string>) {
    && service.body.Body? && service.name !in allowlist && v.service == service.name
    && match v
       case EnvFile(_) => service.body.hasEnvFile
       case ForbiddenKey(_, key) => IsForbiddenKey(key) && key in EnvKeys(service.body.environment)
  }

  lemma {:induction false} KeyViolationsExact(service: string, keys: seq<string>, v: Violation)
    ensures v in KeyViolations(service, keys) <==>
            v.ForbiddenKey? && v.service == service && IsForbiddenKey(v.key) && v.key in keys
  {
    hide IsForbiddenKey;
    if keys == [] {
    } else {
      KeyViolationsExact(service, keys[1..], v);
      assert keys == [keys[0]] + keys[1..];
    }
  }

  lemma {:induction false} ListViolationsExact(services: seq<Service>, allowlist: set<string>, v: Violation)
    ensures v in ListViolations(services, allowlist) <==> exists s <- services :: JustifiedBy(v, s, allowlist)
  {
    hide EnvKeys, IsForbiddenKey;
    if services == [] {
    } else {
      var s := services[0];
      if s.body.Body? {
        KeyViolationsExact(s.name, EnvKeys(s.body.environment), v);
      }
      assert v in ServiceViolations(s, allowlist) <==> JustifiedBy(v, s, allowlist);
      ListViolationsExact(services[1..], allowlist, v);
      assert services == [s] + services[1..];
    }
  }

  /** The report of one document lists what is wrong with it and nothing else. */
  lemma DocViolationsExact(doc: Doc, allowlist: set<string>, v: Violation)
    ensures v in DocViolations(doc, allowlist) <==> Justified(v, doc, allowlist)
  {
    if doc.Doc? && doc.services.Services? {
      ListViolationsExact(doc.services.list, allowlist, v);
    }
  }

  /** A document with a service outside the allowlist that has `env_file` or sets a forbidden key. */
  predicate Offends(doc: Doc, allowlist: set<string>) {
    doc.Doc? && doc.services.Services? && exists s <- doc.services.list ::
      && s.body.Body? && s.name !in allowlist
      && (s.body.hasEnvFile || exists key <- EnvKeys(s.body.environment) :: IsForbiddenKey(key))
  }

  lemma OffendsIff(doc: Doc, allowlist: set<string>)
    ensures Offends(doc, allowlist) <==> DocViolations(doc, allowlist) != []
  {
    hide EnvKeys, IsForbiddenKey, DocViolations;
    if Offends(doc, allowlist) {
      var s :| s in doc.services.list && s.body.Body? && s.name !in allowlist
               && (s.body.hasEnvFile || exists key <- EnvKeys(s.body.environment) :: IsForbiddenKey(key));
      var v;
      if s.body.hasEnvFile {
        v := EnvFile(s.name);
      } else {
        var key :| key in EnvKeys(s.body.environment) && IsForbiddenKey(key);
        v := ForbiddenKey(s.name, key);
      }
      assert JustifiedBy(v, s, allowlist);
      DocViolationsExact(doc, allowlist, v);
    }
    if DocViolations(doc, allowlist) != [] {
      var v := DocViolations(doc, allowlist)[0];
      DocViolationsExact(doc, allowlist, v);
    }
  }

  /** No tool error while the services of this document are scanned. */
  predicate ServicesFine(doc: Doc, allowlist: set<string>) {
    && !doc.NotADict?
    && (doc.Doc? ==> !doc.services.BadServices?)
    && (doc.Doc? && doc.services.Services? ==>
          forall s <- doc.services.list :: Scanned(s, allowlist) ==> !s.body.environment.UnhandledShape?)
  }

  predicate IncludesFine(doc: Doc) {
    doc.Doc? ==>
      && !doc.includes.NotAList?
      && (doc.includes.Entries? ==> forall e <- doc.includes.list :: e.Target?)
  }

  /** The paths a document includes, in order. */
  function TargetsOf(entries: seq<IncludeEntry>): (r: seq<Path>)
    ensures forall p <- r :: Target(p) in entries
    ensures forall e <- entries :: e.Target? ==> e.path in r
  {
    if entries == [] then []
    else if entries[0].Target? then [entries[0].path] + TargetsOf(entries[1..])
    else TargetsOf(entries[1..])
  }

  function DocTargets(doc: Doc): seq<Path> {
    if doc.Doc? && doc.includes.Entries? then TargetsOf(doc.includes.list) else []
  }

  // ---------- files ----------

  /** A file the scan reads to its end without a tool error. */
  predicate Fine(fs: FileSystem, allowlist: set<string>, path: Path) {
    && path in fs && fs[path].File?
    && forall doc <- fs[path].docs :: ServicesFine(doc, allowlist) && IncludesFine(doc)
  }

  predicate IncludesPath(fs: FileSystem, from: Path, to: Path) {
    from in fs && fs[from].File? && exists doc <- fs[from].docs :: to in DocTargets(doc)
  }

  /** Each file of the chain includes the next one. */
  predicate Chain(fs: FileSystem, chain: seq<Path>) {
    forall i | 0 <= i < |chain| - 1 :: IncludesPath(fs, chain[i], chain[i + 1])
  }

  ghost predicate Reaches(fs: FileSystem, from: Path, to: Path) {
    exists chain: seq<Path> :: chain != [] && chain[0] == from && chain[|chain| - 1] == to && Chain(fs, chain)
  }

  ghost predicate Reachable(fs: FileSystem, roots: seq<Path>, to: Path) {
    exists root <- roots :: Reaches(fs, root, to)
  }

  lemma ReachesSelf(fs: FileSystem, p: Path)
    ensures Reaches(fs, p, p)
  {
    var alone := [p];
    assert alone[0] == p && alone[|alone| - 1] == p && Chain(fs, alone);
  }

  lemma ReachesOver(fs: FileSystem, a: Path, b: Path, c: Path)
    requires IncludesPath(fs, a, b) && Reaches(fs, b, c)
    ensures Reaches(fs, a, c)
  {
    var chain :| chain != [] && chain[0] == b && chain[|chain| - 1] == c && Chain(fs, chain);
    hide IncludesPath;
    var longer := [a] + chain;
    forall i | 0 <= i < |longer| - 1
      ensures IncludesPath(fs, longer[i], longer[i + 1])
    {
      assert i > 0 ==> IncludesPath(fs, chain[i - 1], chain[i - 1 + 1]);
    }
    assert longer[|longer| - 1] == c;
  }

  /** A set of files that holds what its files include holds all that they reach. */
  lemma {:induction false} ClosedUnderReach(fs: FileSystem, closed: set<Path>, chain: seq<Path>)
    requires forall p, q | p in closed && IncludesPath(fs, p, q) :: q in closed
    requires chain != [] && chain[0] in closed && Chain(fs, chain)
    ensures chain[|chain| - 1] in closed
  {
    if |chain| > 1 {
      assert IncludesPath(fs, chain[0], chain[0 + 1]);
      forall i | 0 <= i < |chain[1..]| - 1
        ensures IncludesPath(fs, chain[1..][i], chain[1..][i + 1])
      {
        assert IncludesPath(fs, chain[i + 1], chain[i + 1 + 1]);
      }
      ClosedUnderReach(fs, closed, chain[1..]);
    }
  }
}
