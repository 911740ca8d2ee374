/** Laws of the migration runner over any sequence of boots. */
module MigrationLaws {
  import opened Migrations

  /** The store after a sequence of boots, and how the last one ended. */
  function Runs(boots: seq<Boot>, hash: string -> string): Store {
    if boots == [] then EMPTY
    else After(Runs(boots[..|boots| - 1], hash), boots[|boots| - 1], hash).0
  }

  /** No effect twice; the ledger lists exactly the effects, each with the checksum of what ran. */
  ghost predicate Sound(store: Store, hash: string -> string) {
    && Distinct(store.effects)
    && (forall m <- store.effects :: m.name in store.ledger && store.ledger[m.name] == hash(m.sql))
    && forall name <- store.ledger :: exists m <- store.effects :: m.name == name
  }

  lemma AppliedIsSound(store: Store, m: Migration, hash: string -> string)
    requires Sound(store, hash) && m.name !in store.ledger
    ensures Sound(Applied(store, m, hash), hash)
  {
    var next := Applied(store, m, hash);
    forall name | name in next.ledger
      ensures exists e <- next.effects :: e.name == name
    {
      if name == m.name {
        assert m in next.effects;
      } else {
        var e :| e in store.effects && e.name == name;
        assert e in next.effects;
      }
    }
  }

  lemma AppliedKeeps(store: Store, m: Migration, hash: string -> string)
    ensures Applied(store, m, hash).effects == store.effects + [m]
    ensures forall name <- store.ledger ::
              && name in Applied(store, m, hash).ledger
              && Applied(store, m, hash).ledger[name] == store.ledger[name]
  {
  }

  /** The files left to do, none of them in the ledger and none named twice. */
  predicate Fresh(pending: seq<Migration>, ledger: map<string, string>) {
    Distinct(pending) && forall m <- pending :: m.name !in ledger
  }

  lemma {:induction false} PendingFacts(files: seq<Migration>, applied: set<string>)
    requires Distinct(files)
    ensures Distinct(Pending(files, applied))
    ensures forall m :: m in Pending(files, applied) <==> m in files && m.name !in applied
  {
    if files == [] {
    } else {
      var rest := Pending(files[1..], applied);
      PendingFacts(files[1..], applied);
      assert forall m <- rest :: m in files[1..] && m.name != files[0].name;
      assert files == [files[0]] + files[1..];
    }
  }

  /** How far a boot gets: the pending files that are committed when it ends. */
  function Reach(pending: seq<Migration>, fates: string -> Fate): (k: nat)
    ensures k <= |pending|
  {
    if pending == [] then 0
    else
      match fates(pending[0].name)
      case Applies => 1 + Reach(pending[1..], fates)
      case LostAfterCommit => 1
      case _ => 0
  }

  lemma FreshStep(pending: seq<Migration>, store: Store, hash: string -> string)
    requires pending != [] && Fresh(pending, store.ledger)
    ensures Fresh(pending[1..], Applied(store, pending[0], hash).ledger)
  {
    forall m | m in pending[1..]
      ensures m.name !in Applied(store, pending[0], hash).ledger
    {
      var i :| 0 <= i < |pending| - 1 && pending[1..][i] == m;
      assert pending[i + 1] == m && m in pending;
    }
  }

  lemma OneMore(done: seq<Migration>, pending: seq<Migration>, k: nat)
    requires k < |pending|
    ensures done + [pending[0]] + pending[1..][..k] == done + pending[..k + 1]
  {
    assert pending[..k + 1] == [pending[0]] + pending[1..][..k];
  }

  /** A boot commits exactly a prefix of the pending files, and all of them when it succeeds. */
  lemma {:induction false} CommitsPrefix(store: Store, pending: seq<Migration>, fates: string -> Fate,
                                         hash: string -> string)
    requires Sound(store, hash) && Fresh(pending, store.ledger)
    ensures var (next, exit) := ApplyPending(store, pending, fates, hash);
            var k := Reach(pending, fates);
            && Sound(next, hash)
            && next.effects == store.effects + pending[..k]
            && (forall name <- store.ledger :: name in next.ledger && next.ledger[name] == store.ledger[name])
            && (exit.Success? ==> k == |pending|)
            && (exit.Failed? ==> k < |pending|)
            && !exit.Unreachable?
    decreases |pending|
  {
    assert pending != [] ==> pending[0] in pending && pending[0].name !in store.ledger;
    hide Sound, Fresh, Applied, Recorded;
    assert store.effects + pending[..0] == store.effects;
    if pending == [] {
    } else {
      var m, rest := pending[0], pending[1..];
      var one := Applied(store, m, hash);
      AppliedIsSound(store, m, hash);
      AppliedKeeps(store, m, hash);
      FreshStep(pending, store, hash);
      if fates(m.name).Applies? {
        CommitsPrefix(one, rest, fates, hash);
        var k := Reach(rest, fates);
        OneMore(store.effects, pending, k);
      } else if fates(m.name).LostAfterCommit? {
        assert pending[..1] == [m];
      }
    }
  }

  lemma NextIsNotRecorded(store: Store, pending: seq<Migration>, k: nat, next: Store, hash: string -> string)
    requires Sound(store, hash) && Fresh(pending, store.ledger) && k <= |pending|
    requires Sound(next, hash) && next.effects == store.effects + pending[..k]
    ensures forall m <- pending[..k] :: m.name in next.ledger
    ensures k < |pending| ==> pending[k].name !in next.ledger
  {
    forall m | m in pending[..k]
      ensures m.name in next.ledger
    {
      assert m in next.effects;
    }
    if k < |pending| {
      forall e | e in next.effects
        ensures e.name != pending[k].name
      {
        assert e in store.effects || e in pending[..k];
        assert pending[k] in pending;
      }
    }
  }

  /** The first pending file that does not apply ends the boot; what was committed before it stays. */
  lemma {:induction false} ApplyEnds(store: Store, pending: seq<Migration>, fates: string -> Fate,
                                     hash: string -> string, j: nat)
    requires j <= |pending| && (forall i | 0 <= i < j :: fates(pending[i].name) == Applies)
    requires j < |pending| ==> fates(pending[j].name) != Applies
    ensures var (next, exit) := ApplyPending(store, pending, fates, hash);
            if j == |pending| then exit == Success && next.effects == store.effects + pending
            else
              var fate := fates(pending[j].name);
              && (exit == Failed <==> fate in [SqlFails, RecordFails, CommitFails])
              && (exit == Crashed <==> fate in [Unreadable, LostBeforeCommit, LostAfterCommit])
              && next.effects == store.effects + pending[..if fate == LostAfterCommit then j + 1 else j]
    decreases |pending|
  {
    if j == 0 {
      hide Recorded;
      assert store.effects + [] == store.effects;
      assert pending != [] ==> pending[..1] == [pending[0]] && pending[..0] == [];
    } else {
      AppliedKeeps(store, pending[0], hash);
      hide Applied;
      ApplyEnds(Applied(store, pending[0], hash), pending[1..], fates, hash, j - 1);
      var n := if j < |pending| && fates(pending[j].name) == LostAfterCommit then j + 1 else j;
      OneMore(store.effects, pending, n - 1);
      assert pending[..|pending|] == pending && pending[1..][..|pending| - 1] == pending[1..];
    }
  }

  /** How a boot ends: without files before anything else, then by the connection, the mode, and the files. */
  lemma BootEnds(store: Store, boot: Boot, hash: string -> string, j: nat)
    requires var pending := Pending(boot.files, store.ledger.Keys);
             && j <= |pending| && (forall i | 0 <= i < j :: boot.fates(pending[i].name) == Applies)
             && (j < |pending| ==> boot.fates(pending[j].name) != Applies)
    ensures var pending := Pending(boot.files, store.ledger.Keys);
            var (next, exit) := After(store, boot, hash);
            if boot.files == [] then (next, exit) == (store, Success)
            else if !boot.reachable then (next, exit) == (store, Unreachable)
            else if boot.dryRun then (next, exit) == (store, Success)
            else if j == |pending| then exit == Success && next.effects == store.effects + pending
            else
              var fate := boot.fates(pending[j].name);
              && (exit == Failed <==> fate in [SqlFails, RecordFails, CommitFails])
              && (exit == Crashed <==> fate in [Unreadable, LostBeforeCommit, LostAfterCommit])
              && next.effects == store.effects + pending[..if fate == LostAfterCommit then j + 1 else j]
  {
    hide ApplyPending;
    ApplyEnds(store, Pending(boot.files, store.ledger.Keys), boot.fates, hash, j);
  }

  /** One boot on a sound store. */
  lemma BootCommitsPrefix(store: Store, boot: Boot, hash: string -> string) returns (k: nat)
    requires Sound(store, hash) && Distinct(boot.files)
    ensures var pending := Pending(boot.files, store.ledger.Keys);
            var (next, exit) := After(store, boot, hash);
            && Sound(next, hash)
            && k <= |pending| && next.effects == store.effects + pending[..k]
            && (forall name <- store.ledger :: name in next.ledger && next.ledger[name] == store.ledger[name])
            && (boot.dryRun || exit.Unreachable? ==> next == store)
            && (exit.Success? && !boot.dryRun ==> k == |pending| && forall m <- boot.files :: m.name in next.ledger)
            && (exit.Failed? ==> k < |pending| && pending[k].name !in next.ledger)
  {
    hide Sound;
    var pending := Pending(boot.files, store.ledger.Keys);
    PendingFacts(boot.files, store.ledger.Keys);
    assert store.effects + pending[..0] == store.effects;
    k := 0;
    if boot.files != [] && boot.reachable && !boot.dryRun {
      CommitsPrefix(store, pending, boot.fates, hash);
      k := Reach(pending, boot.fates);
      NextIsNotRecorded(store, pending, k, After(store, boot, hash).0, hash);
      assert pending[..|pending|] == pending;
    }
  }

  /**
   After any boots, failing, crashing or not, no effect was committed twice and the ledger lists
   exactly what was committed.
   */
  lemma {:induction false} RunsAreSound(boots: seq<Boot>, hash: string -> string)
    requires forall boot <- boots :: Distinct(boot.files)
    ensures Sound(Runs(boots, hash), hash)
  {
    if boots == [] {
    } else {
      var earlier := boots[..|boots| - 1];
      RunsAreSound(earlier, hash);
      var _ := BootCommitsPrefix(Runs(earlier, hash), boots[|boots| - 1], hash);
    }
  }

  /** A boot of a later release whose file of that name reads differently changes nothing recorded. */
  lemma {:induction false} RecordsStay(boots: seq<Boot>, later: seq<Boot>, hash: string -> string)
    requires forall boot <- boots + later :: Distinct(boot.files)
    ensures Runs(boots, hash).effects <= Runs(boots + later, hash).effects
    ensures forall name <- Runs(boots, hash).ledger ::
              && name in Runs(boots + later, hash).ledger
              && Runs(boots + later, hash).ledger[name] == Runs(boots, hash).ledger[name]
  {
    if later == [] {
      assert boots + later == boots;
    } else {
      var front, last := later[..|later| - 1], later[|later| - 1];
      assert (boots + later)[..|boots + later| - 1] == boots + front;
      assert last in boots + later;
      assert forall boot <- boots + front :: boot in boots + later;
      RecordsStay(boots, front, hash);
      RunsAreSound(boots + front, hash);
      var _ := BootCommitsPrefix(Runs(boots + front, hash), last, hash);
    }
  }

  // ---------- the order of effects ----------

  lemma {:induction false} PendingOfPrefix(files: seq<Migration>, n: nat, applied: set<string>)
    requires Distinct(files)
    requires forall i | 0 <= i < |files| :: files[i].name in applied <==> i < n
    ensures Pending(files, applied) == if n <= |files| then files[n..] else []
  {
    if files == [] {
    } else {
      PendingOfPrefix(files[1..], if n == 0 then 0 else n - 1, applied);
      assert n > 0 && n <= |files| ==> files[1..][n - 1..] == files[n..];
      assert n == 0 ==> [files[0]] + files[1..] == files;
    }
  }

  lemma NamesOfPrefix(all: seq<Migration>, files: seq<Migration>, store: Store, hash: string -> string, i: nat)
    requires Distinct(all) && files <= all && Sound(store, hash) && store.effects <= all && i < |files|
    ensures files[i].name in store.ledger <==> i < |store.effects|
  {
    assert forall j | 0 <= j < |store.effects| :: store.effects[j] == all[j];
    assert i < |store.effects| ==> store.effects[i] in store.effects;
    assert forall j | 0 <= j < |store.effects| :: j != i ==> all[j].name != all[i].name;
  }

  lemma PrefixGrows(all: seq<Migration>, files: seq<Migration>, effects: seq<Migration>, k: nat)
    requires files <= all && effects <= all
    requires k <= if |effects| <= |files| then |files| - |effects| else 0
    ensures effects + (if |effects| <= |files| then files[|effects|..] else [])[..k] <= all
  {
    var n := |effects|;
    if n <= |files| {
      assert files[n..][..k] == all[n..n + k];
      assert effects + all[n..n + k] == all[..n + k];
    }
  }

  lemma BootKeepsPrefix(all: seq<Migration>, store: Store, boot: Boot, hash: string -> string)
    requires Distinct(all) && boot.files <= all && store.effects <= all && Sound(store, hash)
    ensures After(store, boot, hash).0.effects <= all
    ensures Sound(After(store, boot, hash).0, hash)
  {
    hide Sound, After;
    assert Distinct(boot.files);
    var k := BootCommitsPrefix(store, boot, hash);
    var n := |store.effects|;
    forall i | 0 <= i < |boot.files|
      ensures boot.files[i].name in store.ledger.Keys <==> i < n
    {
      NamesOfPrefix(all, boot.files, store, hash, i);
    }
    PendingOfPrefix(boot.files, n, store.ledger.Keys);
    PrefixGrows(all, boot.files, store.effects, k);
  }

  /**
   As long as releases only add files after the existing ones, the effects in the database are at
   every moment a prefix of the sorted files, whatever boots failed or crashed on the way.
   */
  lemma {:induction false} EffectsArePrefix(all: seq<Migration>, boots: seq<Boot>, hash: string -> string)
    requires Distinct(all) && forall boot <- boots :: boot.files <= all
    ensures Runs(boots, hash).effects <= all
    ensures Sound(Runs(boots, hash), hash)
  {
    if boots == [] {
    } else {
      hide Sound, After;
      var earlier, boot := boots[..|boots| - 1], boots[|boots| - 1];
      EffectsArePrefix(all, earlier, hash);
      assert boot in boots;
      BootKeepsPrefix(all, Runs(earlier, hash), boot, hash);
    }
  }

  /** One good boot after any history brings the database to exactly the files of that release. */
  lemma GoodBootCompletes(all: seq<Migration>, boots: seq<Boot>, boot: Boot, hash: string -> string)
    requires Distinct(all) && (forall b <- boots :: b.files <= all) && boot.files == all
    requires all != [] && boot.reachable && !boot.dryRun && forall m <- all :: boot.fates(m.name).Applies?
    ensures After(Runs(boots, hash), boot, hash).1.Success?
    ensures After(Runs(boots, hash), boot, hash).0.effects == all
  {
    hide Sound;
    var store := Runs(boots, hash);
    EffectsArePrefix(all, boots, hash);
    var k := BootCommitsPrefix(store, boot, hash);
    var pending := Pending(all, store.ledger.Keys);
    PendingFacts(all, store.ledger.Keys);
    AllApply(store, pending, boot.fates, hash);
    forall i | 0 <= i < |all|
      ensures all[i].name in store.ledger.Keys <==> i < |store.effects|
    {
      NamesOfPrefix(all, all, store, hash, i);
    }
    PendingOfPrefix(all, |store.effects|, store.ledger.Keys);
    assert pending[..|pending|] == pending;
  }

  lemma {:induction false} AllApply(store: Store, pending: seq<Migration>, fates: string -> Fate,
                                    hash: string -> string)
    requires forall m <- pending :: fates(m.name).Applies?
    ensures ApplyPending(store, pending, fates, hash).1.Success?
    decreases |pending|
  {
    if pending == [] {
    } else {
      AllApply(Applied(store, pending[0], hash), pending[1..], fates, hash);
    }
  }
}
