/**
 The walk over the include graph: which documents are due, what each step of the walk adds, and
 what the files seen have to do with reachability.
 */
module ComposePolicyWalk {
  import opened ComposePolicy

  /** One document handed from the walk to the scan. */
  datatype Visit = Visit(path: Path, index: nat)

  predicate IsDoc(fs: FileSystem, v: Visit) {
    && v.path in fs && fs[v.path].File?
    && v.index < |fs[v.path].docs| && !fs[v.path].docs[v.index].EmptyDoc?
  }

  /** The documents of these files. */
  ghost function DocsOf(fs: FileSystem, files: set<Path>): iset<Visit> {
    iset v: Visit | v.path in files && IsDoc(fs, v)
  }

  /** The first `k` documents of one file. */
  ghost function DocsUpTo(fs: FileSystem, path: Path, k: nat): iset<Visit> {
    iset v: Visit | v.path == path && v.index < k && IsDoc(fs, v)
  }

  ghost predicate EachOnce(visits: seq<Visit>, due: iset<Visit>) {
    forall v: Visit :: multiset(visits)[v] == if v in due then 1 else 0
  }

  lemma EachOnceAppend(a: seq<Visit>, x: iset<Visit>, b: seq<Visit>, y: iset<Visit>)
    requires EachOnce(a, x) && EachOnce(b, y) && x !! y
    ensures EachOnce(a + b, x + y)
  {
    assert multiset(a + b) == multiset(a) + multiset(b);
  }

  /** A file whose includes have all been seen. */
  predicate Closed(fs: FileSystem, seen: set<Path>, path: Path)
    requires path in fs && fs[path].File?
  {
    forall doc <- fs[path].docs :: forall q <- DocTargets(doc) :: q in seen
  }

  predicate NewFilesDone(fs: FileSystem, allowlist: set<string>, before: set<Path>, after: set<Path>) {
    && before <= after
    && forall p <- after - before :: Fine(fs, allowlist, p) && Closed(fs, after, p)
  }

  lemma NewFilesJoin(fs: FileSystem, allowlist: set<string>, a: set<Path>, b: set<Path>, c: set<Path>)
    requires NewFilesDone(fs, allowlist, a, b) && NewFilesDone(fs, allowlist, b, c)
    ensures NewFilesDone(fs, allowlist, a, c)
  {
    hide Fine;
    forall p | p in c - a
      ensures Fine(fs, allowlist, p) && p in fs && fs[p].File? && Closed(fs, c, p)
    {
      assert Fine(fs, allowlist, p);
      assert p in fs && fs[p].File? by { FineIsFile(fs, allowlist, p); }
    }
  }

  lemma FineIsFile(fs: FileSystem, allowlist: set<string>, path: Path)
    requires Fine(fs, allowlist, path)
    ensures path in fs && fs[path].File?
  {
  }

  /** The documents of a file read so far: without tool errors, and what they include is seen. */
  predicate DocsDone(allowlist: set<string>, docs: seq<Doc>, seen: set<Path>) {
    forall doc <- docs ::
      ServicesFine(doc, allowlist) && IncludesFine(doc) && forall q <- DocTargets(doc) :: q in seen
  }

  lemma EmptyDocDone(allowlist: set<string>, docs: seq<Doc>, seen: set<Path>)
    requires DocsDone(allowlist, docs, seen)
    ensures DocsDone(allowlist, docs + [EmptyDoc], seen)
  {
  }

  lemma MoreDocsDone(allowlist: set<string>, docs: seq<Doc>, doc: Doc,
                     before: set<Path>, seen: set<Path>)
    requires DocsDone(allowlist, docs, before) && before <= seen
    requires ServicesFine(doc, allowlist) && IncludesFine(doc) && forall q <- DocTargets(doc) :: q in seen
    ensures DocsDone(allowlist, docs + [doc], seen)
  {
    hide ServicesFine, IncludesFine, DocTargets;
  }

  lemma AllDocsDone(fs: FileSystem, allowlist: set<string>, path: Path, before: set<Path>, seen: set<Path>)
    requires path in fs && fs[path].File? && path !in before
    requires NewFilesDone(fs, allowlist, before + {path}, seen)
    requires DocsDone(allowlist, fs[path].docs, seen)
    ensures NewFilesDone(fs, allowlist, before, seen)
  {
    hide ServicesFine, IncludesFine, DocTargets;
    assert Fine(fs, allowlist, path) && Closed(fs, seen, path);
    hide Fine, Closed;
    forall p | p in seen - before
      ensures Fine(fs, allowlist, p) && p in fs && fs[p].File? && Closed(fs, seen, p)
    {
      if p != path {
        assert p in seen - (before + {path});
        FineIsFile(fs, allowlist, p);
      }
    }
  }

  lemma OneVisit(v: Visit)
    ensures EachOnce([v], iset{v})
  {
  }

  lemma OneMoreDoc(fs: FileSystem, path: Path, k: nat, visits: seq<Visit>, inner: seq<Visit>,
                   entered: set<Path>, here: set<Path>, seen: set<Path>)
    requires IsDoc(fs, Visit(path, k)) && path in entered && entered <= here <= seen
    requires EachOnce(visits, DocsOf(fs, here - entered) + DocsUpTo(fs, path, k))
    requires EachOnce(inner, iset{Visit(path, k)} + DocsOf(fs, seen - here))
    ensures EachOnce(visits + inner, DocsOf(fs, seen - entered) + DocsUpTo(fs, path, k + 1))
  {
    var before := DocsOf(fs, here - entered) + DocsUpTo(fs, path, k);
    var now := iset{Visit(path, k)} + DocsOf(fs, seen - here);
    EachOnceAppend(visits, before, inner, now);
    assert before + now == DocsOf(fs, seen - entered) + DocsUpTo(fs, path, k + 1);
  }

  /** Everything new in `after` was walked to its end, each of its documents once. */
  ghost predicate Walked(fs: FileSystem, allowlist: set<string>, before: set<Path>, after: set<Path>,
                         visits: seq<Visit>) {
    NewFilesDone(fs, allowlist, before, after) && EachOnce(visits, DocsOf(fs, after - before))
  }

  lemma NothingWalked(fs: FileSystem, allowlist: set<string>, seen: set<Path>)
    ensures Walked(fs, allowlist, seen, seen, []) && VisitViolations(fs, allowlist, []) == []
  {
  }

  lemma WalkedTwice(fs: FileSystem, allowlist: set<string>, a: set<Path>, b: set<Path>, c: set<Path>,
                    first: seq<Visit>, second: seq<Visit>)
    requires Walked(fs, allowlist, a, b, first) && Walked(fs, allowlist, b, c, second)
    ensures Walked(fs, allowlist, a, c, first + second)
  {
    NewFilesJoin(fs, allowlist, a, b, c);
    assert DocsOf(fs, c - a) == DocsOf(fs, b - a) + DocsOf(fs, c - b);
    EachOnceAppend(first, DocsOf(fs, b - a), second, DocsOf(fs, c - b));
  }

  /** `path` was entered, its first `k` documents are done, and so is every file they brought in. */
  ghost predicate HalfWalked(fs: FileSystem, allowlist: set<string>, path: Path, k: nat,
                             entered: set<Path>, seen: set<Path>, visits: seq<Visit>)
    requires path in fs && fs[path].File? && k <= |fs[path].docs|
  {
    && path in entered
    && NewFilesDone(fs, allowlist, entered, seen)
    && DocsDone(allowlist, fs[path].docs[..k], seen)
    && EachOnce(visits, DocsOf(fs, seen - entered) + DocsUpTo(fs, path, k))
  }

  lemma WalkStarts(fs: FileSystem, allowlist: set<string>, path: Path, entered: set<Path>)
    requires path in entered && path in fs && fs[path].File?
    ensures HalfWalked(fs, allowlist, path, 0, entered, entered, [])
  {
  }

  lemma WalkSkips(fs: FileSystem, allowlist: set<string>, path: Path, k: nat,
                  entered: set<Path>, seen: set<Path>, visits: seq<Visit>)
    requires path in fs && fs[path].File? && k < |fs[path].docs| && fs[path].docs[k].EmptyDoc?
    requires HalfWalked(fs, allowlist, path, k, entered, seen, visits)
    ensures HalfWalked(fs, allowlist, path, k + 1, entered, seen, visits)
  {
    hide NewFilesDone, EachOnce;
    assert DocsUpTo(fs, path, k + 1) == DocsUpTo(fs, path, k);
    assert fs[path].docs[..k + 1] == fs[path].docs[..k] + [EmptyDoc];
    EmptyDocDone(allowlist, fs[path].docs[..k], seen);
  }

  /** What scanning one document and walking its includes adds. */
  ghost predicate DocWalked(fs: FileSystem, allowlist: set<string>, path: Path, k: nat,
                            before: set<Path>, after: set<Path>, visits: seq<Visit>)
    requires path in fs && fs[path].File? && k < |fs[path].docs|
  {
    var doc := fs[path].docs[k];
    && NewFilesDone(fs, allowlist, before, after)
    && ServicesFine(doc, allowlist) && IncludesFine(doc) && (forall q <- DocTargets(doc) :: q in after)
    && EachOnce(visits, iset{Visit(path, k)} + DocsOf(fs, after - before))
  }

  lemma WalkContinues(fs: FileSystem, allowlist: set<string>, path: Path, k: nat,
                      entered: set<Path>, here: set<Path>, seen: set<Path>,
                      visits: seq<Visit>, inner: seq<Visit>)
    requires IsDoc(fs, Visit(path, k))
    requires HalfWalked(fs, allowlist, path, k, entered, here, visits)
    requires DocWalked(fs, allowlist, path, k, here, seen, inner)
    ensures HalfWalked(fs, allowlist, path, k + 1, entered, seen, visits + inner)
  {
    hide ServicesFine, IncludesFine, DocTargets, Fine;
    var docs := fs[path].docs;
    NewFilesJoin(fs, allowlist, entered, here, seen);
    MoreDocsDone(allowlist, docs[..k], docs[k], here, seen);
    assert docs[..k + 1] == docs[..k] + [docs[k]];
    OneMoreDoc(fs, path, k, visits, inner, entered, here, seen);
  }

  lemma WalkEnds(fs: FileSystem, allowlist: set<string>, path: Path, before: set<Path>, seen: set<Path>,
                 visits: seq<Visit>)
    requires path in fs && fs[path].File? && path !in before
    requires HalfWalked(fs, allowlist, path, |fs[path].docs|, before + {path}, seen, visits)
    ensures Walked(fs, allowlist, before, seen, visits)
  {
    assert fs[path].docs[..|fs[path].docs|] == fs[path].docs;
    AllDocsDone(fs, allowlist, path, before, seen);
    assert DocsOf(fs, seen - (before + {path})) + DocsUpTo(fs, path, |fs[path].docs|)
        == DocsOf(fs, seen - before);
  }

  function VisitViolations(fs: FileSystem, allowlist: set<string>, visits: seq<Visit>): seq<Violation> {
    if visits == [] then []
    else
      var v := visits[|visits| - 1];
      VisitViolations(fs, allowlist, visits[..|visits| - 1])
      + if IsDoc(fs, v) then DocViolations(fs[v.path].docs[v.index], allowlist) else []
  }

  lemma {:induction false} VisitViolationsAppend(fs: FileSystem, allowlist: set<string>, a: seq<Visit>, b: seq<Visit>)
    ensures VisitViolations(fs, allowlist, a + b)
         == VisitViolations(fs, allowlist, a) + VisitViolations(fs, allowlist, b)
  {
    hide DocViolations;
    if b == [] {
      assert a + b == a;
    } else {
      VisitViolationsAppend(fs, allowlist, a, b[..|b| - 1]);
      assert (a + b)[..|a + b| - 1] == a + b[..|b| - 1];
    }
  }

  /** A report already begun grows by what further visits find. */
  lemma ReportGrows(fs: FileSystem, allowlist: set<string>, report: seq<Violation>, a: seq<Visit>, b: seq<Visit>)
    ensures report + VisitViolations(fs, allowlist, a) + VisitViolations(fs, allowlist, b)
         == report + VisitViolations(fs, allowlist, a + b)
  {
    hide VisitViolations;
    VisitViolationsAppend(fs, allowlist, a, b);
  }

  lemma ReportOfOne(fs: FileSystem, allowlist: set<string>, v: Visit)
    requires IsDoc(fs, v)
    ensures VisitViolations(fs, allowlist, [v]) == DocViolations(fs[v.path].docs[v.index], allowlist)
  {
    assert [v][..0] == [];
  }

  // ---------- reachability of what a walk saw ----------

  ghost predicate AllReached(fs: FileSystem, roots: seq<Path>, files: set<Path>) {
    forall p <- files :: Reachable(fs, roots, p)
  }

  /** Some file reachable from the roots cannot be scanned to its end. */
  ghost predicate ReachesBroken(fs: FileSystem, allowlist: set<string>, roots: seq<Path>) {
    exists p :: Reachable(fs, roots, p) && !Fine(fs, allowlist, p)
  }

  lemma AllReachedJoin(fs: FileSystem, roots: seq<Path>, a: set<Path>, b: set<Path>, c: set<Path>)
    requires AllReached(fs, roots, b - a) && AllReached(fs, roots, c - b)
    ensures AllReached(fs, roots, c - a)
  {
    hide Reachable;
    forall p | p in c - a
      ensures Reachable(fs, roots, p)
    {
      assert p in b - a || p in c - b;
    }
  }

  lemma ItselfReached(fs: FileSystem, allowlist: set<string>, path: Path)
    ensures AllReached(fs, [path], {path})
    ensures !Fine(fs, allowlist, path) ==> ReachesBroken(fs, allowlist, [path])
  {
    hide Fine, Reaches;
    ReachesSelf(fs, path);
    assert path in [path];
    assert Reachable(fs, [path], path);
  }

  lemma BadDocBreaks(fs: FileSystem, allowlist: set<string>, path: Path, k: nat)
    requires path in fs && fs[path].File? && k < |fs[path].docs|
    ensures !ServicesFine(fs[path].docs[k], allowlist) ==> ReachesBroken(fs, allowlist, [path])
    ensures !IncludesFine(fs[path].docs[k]) ==> ReachesBroken(fs, allowlist, [path])
    ensures fs[path].docs[k].NotADict? ==> ReachesBroken(fs, allowlist, [path])
  {
    ItselfReached(fs, allowlist, path);
    hide ReachesBroken;
    assert fs[path].docs[k] in fs[path].docs;
  }

  lemma UnreadableBreaks(fs: FileSystem, allowlist: set<string>, path: Path)
    ensures path !in fs || fs[path].Unreadable? ==> ReachesBroken(fs, allowlist, [path])
    ensures AllReached(fs, [path], {}) && AllReached(fs, [path], {path})
  {
    ItselfReached(fs, allowlist, path);
  }

  /** What the includes of a document reach, the file of the document reaches. */
  lemma ThroughDoc(fs: FileSystem, allowlist: set<string>, path: Path, k: nat, files: set<Path>)
    requires path in fs && fs[path].File? && k < |fs[path].docs|
    ensures AllReached(fs, DocTargets(fs[path].docs[k]), files) ==> AllReached(fs, [path], files)
    ensures ReachesBroken(fs, allowlist, DocTargets(fs[path].docs[k])) ==> ReachesBroken(fs, allowlist, [path])
  {
    hide Reaches, DocTargets, Fine;
    var targets := DocTargets(fs[path].docs[k]);
    forall p | Reachable(fs, targets, p)
      ensures Reachable(fs, [path], p)
    {
      var q :| q in targets && Reaches(fs, q, p);
      assert fs[path].docs[k] in fs[path].docs;
      assert path in [path];
      ReachesOver(fs, path, q, p);
    }
  }

  lemma ThroughRoot(fs: FileSystem, allowlist: set<string>, roots: seq<Path>, i: nat, files: set<Path>)
    requires i < |roots|
    ensures AllReached(fs, [roots[i]], files) ==> AllReached(fs, roots, files)
    ensures ReachesBroken(fs, allowlist, [roots[i]]) ==> ReachesBroken(fs, allowlist, roots)
  {
    hide Reaches, Fine;
    forall p | Reachable(fs, [roots[i]], p)
      ensures Reachable(fs, roots, p)
    {
      assert roots[i] in roots;
    }
  }

  // ---------- what a whole scan says ----------

  /** A scan from nothing that ends well saw the reachable files, no others, and all are fine. */
  lemma SeenIsReachable(fs: FileSystem, allowlist: set<string>, roots: seq<Path>, seen: set<Path>)
    requires NewFilesDone(fs, allowlist, {}, seen) && AllReached(fs, roots, seen)
    requires forall p <- roots :: p in seen
    ensures forall p :: p in seen <==> Reachable(fs, roots, p)
    ensures forall p | Reachable(fs, roots, p) :: Fine(fs, allowlist, p)
  {
    hide Fine, Reaches, IncludesPath, Closed;
    assert seen - {} == seen;
    IncludesAreSeen(fs, allowlist, seen);
    forall p | Reachable(fs, roots, p)
      ensures p in seen
    {
      var root :| root in roots && Reaches(fs, root, p);
      ReachedIsSeen(fs, seen, root, p);
    }
  }

  lemma IncludesAreSeen(fs: FileSystem, allowlist: set<string>, seen: set<Path>)
    requires NewFilesDone(fs, allowlist, {}, seen)
    ensures forall p, q | p in seen && IncludesPath(fs, p, q) :: q in seen
  {
    hide Fine, DocTargets;
    assert seen - {} == seen;
    forall p, q | p in seen && IncludesPath(fs, p, q)
      ensures q in seen
    {
      assert Closed(fs, seen, p);
    }
  }

  lemma ReachedIsSeen(fs: FileSystem, seen: set<Path>, root: Path, p: Path)
    requires forall p, q | p in seen && IncludesPath(fs, p, q) :: q in seen
    requires root in seen && Reaches(fs, root, p)
    ensures p in seen
  {
    hide IncludesPath;
    var chain: seq<Path> :| chain != [] && chain[0] == root && chain[|chain| - 1] == p && Chain(fs, chain);
    ClosedUnderReach(fs, seen, chain);
  }

  lemma {:induction false} ReportListsVisits(fs: FileSystem, allowlist: set<string>, visits: seq<Visit>, v: Violation)
    ensures v in VisitViolations(fs, allowlist, visits) <==>
            exists d <- visits :: IsDoc(fs, d) && v in DocViolations(fs[d.path].docs[d.index], allowlist)
  {
    hide DocViolations;
    if visits == [] {
    } else {
      var front, last := visits[..|visits| - 1], visits[|visits| - 1];
      ReportListsVisits(fs, allowlist, front, v);
      assert visits == front + [last];
    }
  }

  /** The report names what is wrong with the reachable documents, and only that. */
  lemma ReportIsExact(fs: FileSystem, allowlist: set<string>, roots: seq<Path>, seen: set<Path>,
                      visits: seq<Visit>, v: Violation)
    requires forall p :: p in seen <==> Reachable(fs, roots, p)
    requires EachOnce(visits, DocsOf(fs, seen))
    ensures v in VisitViolations(fs, allowlist, visits) <==> Reported(fs, allowlist, roots, v)
  {
    hide DocViolations, Reachable, VisitViolations, Justified;
    ReportListsVisits(fs, allowlist, visits, v);
    forall d: Visit
      ensures d in visits <==> d in DocsOf(fs, seen)
    {
      assert d in multiset(visits) <==> d in visits;
    }
    forall d: Visit | IsDoc(fs, d)
      ensures v in DocViolations(fs[d.path].docs[d.index], allowlist)
         <==> Justified(v, fs[d.path].docs[d.index], allowlist)
    {
      DocViolationsExact(fs[d.path].docs[d.index], allowlist, v);
    }
  }

  ghost predicate Reported(fs: FileSystem, allowlist: set<string>, roots: seq<Path>, v: Violation) {
    exists d: Visit :: IsDoc(fs, d) && Reachable(fs, roots, d.path)
                       && Justified(v, fs[d.path].docs[d.index], allowlist)
  }

  /** No report exactly when no reachable document offends. */
  lemma NoReportIffClean(fs: FileSystem, allowlist: set<string>, roots: seq<Path>, seen: set<Path>, visits: seq<Visit>)
    requires forall p :: p in seen <==> Reachable(fs, roots, p)
    requires EachOnce(visits, DocsOf(fs, seen))
    ensures VisitViolations(fs, allowlist, visits) == [] <==>
            forall d: Visit | IsDoc(fs, d) && Reachable(fs, roots, d.path) ::
              !Offends(fs[d.path].docs[d.index], allowlist)
  {
    hide DocViolations, Reachable, VisitViolations, Justified, Offends;
    var report := VisitViolations(fs, allowlist, visits);
    if report != [] {
      ReportIsExact(fs, allowlist, roots, seen, visits, report[0]);
      var d: Visit :| IsDoc(fs, d) && Reachable(fs, roots, d.path)
                      && Justified(report[0], fs[d.path].docs[d.index], allowlist);
      DocViolationsExact(fs[d.path].docs[d.index], allowlist, report[0]);
      OffendsIff(fs[d.path].docs[d.index], allowlist);
    }
    forall d: Visit | IsDoc(fs, d) && Reachable(fs, roots, d.path) && Offends(fs[d.path].docs[d.index], allowlist)
      ensures report != []
    {
      var doc := fs[d.path].docs[d.index];
      OffendsIff(doc, allowlist);
      var v := DocViolations(doc, allowlist)[0];
      DocViolationsExact(doc, allowlist, v);
      ReportIsExact(fs, allowlist, roots, seen, visits, v);
    }
  }
}
