/**
 The scan as it runs: a recursive walk over the include graph that grows the set of seen files and
 the list of violations.
 */
module ComposePolicyScan {
  import opened ComposePolicy
  import opened ComposePolicyKeys
  import opened ComposePolicyWalk

  method KeysOfItems(items: seq<EnvItem>) returns (keys: seq<string>)
    ensures keys == ItemKeys(items)
  {
    hide ItemKey;
    keys := [];
    for i := 0 to |items|
      invariant keys == ItemKeys(items[..i])
    {
      ItemKeysSnoc(items[..i], items[i]);
      assert items[..i] + [items[i]] == items[..i + 1];
      if items[i].NotAString? {
        continue;
      }
      keys := keys + [ItemKey(items[i].text)];
    }
    assert items[..|items|] == items;
  }

  lemma {:induction false} ItemKeysSnoc(items: seq<EnvItem>, last: EnvItem)
    ensures ItemKeys(items + [last]) == ItemKeys(items) + if last.Str? then [ItemKey(last.text)] else []
  {
    hide ItemKey;
    if items == [] {
    } else {
      ItemKeysSnoc(items[1..], last);
      assert (items + [last])[1..] == items[1..] + [last];
    }
  }

  /** Reading the keys of an `environment` block; not `ok` for a shape the check does not know. */
  method NormalizeRawEnvKeys(environment: Environment) returns (ok: bool, keys: seq<string>)
    ensures ok == !environment.UnhandledShape?
    ensures ok ==> keys == EnvKeys(environment)
    ensures environment.Items? ==> ListsKeys(environment.items, keys)
  {
    hide ItemKeys, ListsKeys;
    match environment
    case NoEnvironment => return true, [];
    case Mapping(names) => return true, names;
    case UnhandledShape => return false, [];
    case Items(items) =>
      keys := KeysOfItems(items);
      KeysAreListed(items);
      return true, keys;
  }

  lemma NoTargets()
    ensures TargetsOf([]) == []
  {
  }

  lemma TargetsCons(first: IncludeEntry, rest: seq<IncludeEntry>)
    ensures TargetsOf([first] + rest) == (if first.Target? then [first.path] else []) + TargetsOf(rest)
  {
    assert ([first] + rest)[1..] == rest;
  }

  lemma {:induction false} TargetsSnoc(entries: seq<IncludeEntry>, last: Path)
    ensures TargetsOf(entries + [Target(last)]) == TargetsOf(entries) + [last]
  {
    hide TargetsOf;
    if entries == [] {
      NoTargets();
      TargetsCons(Target(last), []);
      assert entries + [Target(last)] == [Target(last)] + [];
      assert [last] + TargetsOf([]) == TargetsOf([]) + [last];
    } else {
      var first, rest := entries[0], entries[1..];
      assert entries == [first] + rest;
      assert entries + [Target(last)] == [first] + (rest + [Target(last)]);
      TargetsSnoc(rest, last);
      TargetsCons(first, rest);
      TargetsCons(first, rest + [Target(last)]);
    }
  }

  method PathsOfEntries(entries: seq<IncludeEntry>) returns (ok: bool, out: seq<Path>)
    ensures ok == forall e <- entries :: e.Target?
    ensures ok ==> out == TargetsOf(entries)
  {
    hide TargetsOf;
    NoTargets();
    out := [];
    for i := 0 to |entries|
      invariant forall e <- entries[..i] :: e.Target?
      invariant out == TargetsOf(entries[..i])
    {
      if entries[i].UnsupportedEntry? {
        assert entries[i] in entries;
        return false, [];
      }
      TargetsSnoc(entries[..i], entries[i].path);
      assert entries[..i] + [entries[i]] == entries[..i + 1];
      out := out + [entries[i].path];
    }
    assert entries[..|entries|] == entries;
    ok := true;
  }

  /** The files a document includes; not `ok` for a malformed `include`. */
  method CollectIncludePaths(doc: Doc) returns (ok: bool, out: seq<Path>)
    requires doc.Doc?
    ensures ok == IncludesFine(doc)
    ensures ok ==> out == DocTargets(doc)
  {
    hide TargetsOf;
    match doc.includes
    case NoInclude => return true, [];
    case NotAList => return false, [];
    case Entries(entries) => ok, out := PathsOfEntries(entries);
  }

  class Scan {
    const fs: FileSystem
    const allowlist: set<string>
    var seen: set<Path>
    var violations: seq<Violation>

    constructor (fs: FileSystem, allowlist: set<string>)
      ensures this.fs == fs && this.allowlist == allowlist
      ensures seen == {} && violations == []
    {
      this.fs, this.allowlist := fs, allowlist;
      seen, violations := {}, [];
    }

    method ScanService(service: Service) returns (ok: bool)
      modifies this`violations
      ensures ok == (Scanned(service, allowlist) ==> !service.body.environment.UnhandledShape?)
      ensures ok ==> violations == old(violations) + ServiceViolations(service, allowlist)
    {
      hide IsForbiddenKey, EnvKeys;
      if service.body.NotAMapping? || service.name in allowlist {
        return true;
      }
      if service.body.hasEnvFile {
        violations := violations + [EnvFile(service.name)];
      }
      ghost var flags := if service.body.hasEnvFile then [EnvFile(service.name)] else [];
      var keys;
      ok, keys := NormalizeRawEnvKeys(service.body.environment);
      if !ok {
        return false;
      }
      ghost var found := KeyViolations(service.name, keys);
      assert (old(violations) + flags) + found == old(violations) + (flags + found);
      ScanKeys(service.name, keys);
    }

    method ScanKeys(service: string, keys: seq<string>)
      modifies this`violations
      ensures violations == old(violations) + KeyViolations(service, keys)
    {
      hide IsForbiddenKey;
      for i := 0 to |keys|
        invariant violations + KeyViolations(service, keys[i..]) == old(violations) + KeyViolations(service, keys)
      {
        assert keys[i..][1..] == keys[i + 1..];
        if IsForbiddenKey(keys[i]) {
          violations := violations + [ForbiddenKey(service, keys[i])];
        }
      }
    }

    method ScanServices(doc: Doc) returns (ok: bool)
      requires doc.Doc?
      modifies this`violations
      ensures ok == ServicesFine(doc, allowlist)
      ensures ok ==> violations == old(violations) + DocViolations(doc, allowlist)
    {
      hide ServiceViolations;
      match doc.services {
        case NoServices => return true;
        case BadServices => return false;
        case Services(services) =>
          for i := 0 to |services|
            invariant violations + ListViolations(services[i..], allowlist)
                   == old(violations) + ListViolations(services, allowlist)
            invariant forall s <- services[..i] ::
                        Scanned(s, allowlist) ==> !s.body.environment.UnhandledShape?
          {
            assert services[i..][1..] == services[i + 1..];
            assert services[i] in services;
            ok := ScanService(services[i]);
            if !ok {
              return false;
            }
          }
          assert services[..|services|] == services;
          return true;
      }
    }

    /** Scans one document, then walks what it includes. */
    method ScanDoc(path: Path, k: nat) returns (ok: bool, ghost visits: seq<Visit>)
      requires IsDoc(fs, Visit(path, k)) && path in seen
      modifies this
      decreases fs.Keys - seen, 2
      ensures old(seen) <= seen
      ensures ok ==> DocWalked(fs, allowlist, path, k, old(seen), seen, visits)
      ensures ok ==> AllReached(fs, [path], seen - old(seen))
      ensures ok ==> violations == old(violations) + VisitViolations(fs, allowlist, visits)
      ensures !ok ==> ReachesBroken(fs, allowlist, [path])
    {
      hide DocViolations, ServicesFine, IncludesFine, DocTargets, AllReached, ReachesBroken, Fine, VisitViolations;
      var doc := fs[path].docs[k];
      BadDocBreaks(fs, allowlist, path, k);
      if doc.NotADict? {
        return false, [];
      }
      ok := ScanServices(doc);
      if !ok {
        return false, [];
      }
      visits := [Visit(path, k)];
      ReportOfOne(fs, allowlist, Visit(path, k));
      var includes;
      ok, includes := CollectIncludePaths(doc);
      if !ok {
        return false, [];
      }
      ghost var inner;
      ok, inner := ScanFiles(includes);
      ThroughDoc(fs, allowlist, path, k, seen - old(seen));
      if ok {
        OneVisit(Visit(path, k));
        EachOnceAppend(visits, iset{Visit(path, k)}, inner, DocsOf(fs, seen - old(seen)));
        ReportGrows(fs, allowlist, old(violations), visits, inner);
        visits := visits + inner;
      }
    }

    /** Walks one file and all it includes, unless it has been seen. */
    method ScanFile(path: Path) returns (ok: bool, ghost visits: seq<Visit>)
      modifies this
      decreases fs.Keys - seen, 0
      ensures old(seen) <= seen
      ensures ok ==> path in seen && Walked(fs, allowlist, old(seen), seen, visits)
      ensures ok ==> AllReached(fs, [path], seen - old(seen))
      ensures ok ==> violations == old(violations) + VisitViolations(fs, allowlist, visits)
      ensures !ok ==> ReachesBroken(fs, allowlist, [path])
    {
      hide AllReached, ReachesBroken, HalfWalked, DocWalked, Walked, Fine, VisitViolations, IsForbiddenKey;
      visits := [];
      UnreadableBreaks(fs, allowlist, path);
      NothingWalked(fs, allowlist, seen);
      assert seen - seen == {};
      if path in seen {
        return true, [];
      }
      if path !in fs {
        return false, [];
      }
      seen := seen + {path};
      if fs[path].Unreadable? {
        return false, [];
      }
      WalkStarts(fs, allowlist, path, seen);
      assert seen - old(seen) == {path};
      for k := 0 to |fs[path].docs|
        invariant HalfWalked(fs, allowlist, path, k, old(seen) + {path}, seen, visits)
        invariant path in seen && old(seen) <= seen && AllReached(fs, [path], seen - old(seen))
        invariant violations == old(violations) + VisitViolations(fs, allowlist, visits)
      {
        ghost var here := seen;
        if fs[path].docs[k].EmptyDoc? {
          WalkSkips(fs, allowlist, path, k, old(seen) + {path}, here, visits);
          continue;
        }
        ghost var inner;
        ok, inner := ScanDoc(path, k);
        if !ok {
          return false, [];
        }
        WalkContinues(fs, allowlist, path, k, old(seen) + {path}, here, seen, visits, inner);
        AllReachedJoin(fs, [path], old(seen), here, seen);
        ReportGrows(fs, allowlist, old(violations), visits, inner);
        visits := visits + inner;
      }
      WalkEnds(fs, allowlist, path, old(seen), seen, visits);
      ok := true;
    }

    /** Walks a list of files in order. */
    method ScanFiles(paths: seq<Path>) returns (ok: bool, ghost visits: seq<Visit>)
      modifies this
      decreases fs.Keys - seen, 1
      ensures old(seen) <= seen
      ensures ok ==> (forall p <- paths :: p in seen) && Walked(fs, allowlist, old(seen), seen, visits)
      ensures ok ==> AllReached(fs, paths, seen - old(seen))
      ensures ok ==> violations == old(violations) + VisitViolations(fs, allowlist, visits)
      ensures !ok ==> ReachesBroken(fs, allowlist, paths)
    {
      visits := [];
      assert Walked(fs, allowlist, seen, seen, []) && AllReached(fs, paths, seen - seen);
      for i := 0 to |paths|
        invariant forall p <- paths[..i] :: p in seen
        invariant old(seen) <= seen && Walked(fs, allowlist, old(seen), seen, visits)
        invariant AllReached(fs, paths, seen - old(seen))
        invariant violations == old(violations) + VisitViolations(fs, allowlist, visits)
      {
        hide Walked, AllReached, ReachesBroken, VisitViolations;
        ghost var here := seen;
        ghost var inner;
        ok, inner := ScanFile(paths[i]);
        ThroughRoot(fs, allowlist, paths, i, seen - here);
        if !ok {
          return false, [];
        }
        WalkedTwice(fs, allowlist, old(seen), here, seen, visits, inner);
        AllReachedJoin(fs, paths, old(seen), here, seen);
        ReportGrows(fs, allowlist, old(violations), visits, inner);
        visits := visits + inner;
      }
      ok := true;
    }
  }

  /** A reachable document breaks the policy in the way a report line says. */
  ghost predicate Found(fs: FileSystem, allowlist: set<string>, roots: seq<Path>, v: Violation) {
    exists d: Visit | IsDoc(fs, d) && Reachable(fs, roots, d.path) ::
      Breaks(v, fs[d.path].docs[d.index], allowlist)
  }

  lemma FoundIff(fs: FileSystem, allowlist: set<string>, roots: seq<Path>, v: Violation)
    ensures Reported(fs, allowlist, roots, v) <==> Found(fs, allowlist, roots, v)
  {
    hide Reachable, Justified, Breaks;
    forall d: Visit | IsDoc(fs, d)
      ensures Justified(v, fs[d.path].docs[d.index], allowlist) <==> Breaks(v, fs[d.path].docs[d.index], allowlist)
    {
      BreaksIff(v, fs[d.path].docs[d.index], allowlist);
    }
  }

  /**
   Pass A. It ends on every include graph, cyclic ones too; it ends without a tool error exactly
   when every reachable file is fine; and then the report is exact and each reachable document was
   scanned once.
   */
  method PassAScan(fs: FileSystem, allowlist: set<string>, roots: seq<Path>)
    returns (ok: bool, violations: seq<Violation>, seen: set<Path>, ghost visits: seq<Visit>)
    ensures ok <==> forall p | Reachable(fs, roots, p) :: Fine(fs, allowlist, p)
    ensures ok ==> forall p :: p in seen <==> Reachable(fs, roots, p)
    ensures ok ==> EachOnce(visits, DocsOf(fs, seen))
    ensures ok ==> violations == VisitViolations(fs, allowlist, visits)
    ensures ok ==> forall v :: v in violations <==> Reported(fs, allowlist, roots, v)
    ensures ok ==> forall v :: v in violations <==> Found(fs, allowlist, roots, v)
    ensures ok ==> (violations == [] <==>
                      forall d: Visit | IsDoc(fs, d) && Reachable(fs, roots, d.path) ::
                        !Offends(fs[d.path].docs[d.index], allowlist))
  {
    hide Fine, Reachable, AllReached, Offends, VisitViolations, EachOnce, DocsOf, Reported, Found, NewFilesDone;
    var scan := new Scan(fs, allowlist);
    ok, visits := scan.ScanFiles(roots);
    violations, seen := scan.violations, scan.seen;
    if ok {
      assert seen - {} == seen;
      SeenIsReachable(fs, allowlist, roots, seen);
      NoReportIffClean(fs, allowlist, roots, seen, visits);
      forall v: Violation
        ensures v in violations <==> Reported(fs, allowlist, roots, v)
        ensures v in violations <==> Found(fs, allowlist, roots, v)
      {
        ReportIsExact(fs, allowlist, roots, seen, visits, v);
        FoundIff(fs, allowlist, roots, v);
      }
    }
  }
}
