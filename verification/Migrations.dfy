/**
 The migration runner over a transactional store: each boot applies the pending files in order, one
 transaction per file, and may fail or be cut off at any point.
 */
module Migrations {

  datatype Migration = Migration(name: string, sql: string)

  /** What happens when a boot reaches a pending file. */
  datatype Fate =
    | Applies
    | Unreadable
    | SqlFails
    | RecordFails
    | CommitFails
    | LostBeforeCommit
    | LostAfterCommit

  datatype Exit = Success | Unreachable | Failed | Crashed

  /** One start of the container: the files found, in sorted order, and how the boot goes. */
  datatype Boot = Boot(files: seq<Migration>, dryRun: bool, reachable: bool, fates: string -> Fate)

  /** Committed state: the migrations whose effects are in the database, in order, and the ledger of checksums. */
  datatype Store = Store(effects: seq<Migration>, ledger: map<string, string>)

  const EMPTY := Store([], map[])

  /** The files of one directory: no name twice. */
  predicate Distinct(files: seq<Migration>) {
    forall i, j | 0 <= i < j < |files| :: files[i].name != files[j].name
  }

  function Pending(files: seq<Migration>, applied: set<string>): seq<Migration> {
    if files == [] then []
    else if files[0].name in applied then Pending(files[1..], applied)
    else [files[0]] + Pending(files[1..], applied)
  }

  function Recorded(ledger: map<string, string>, name: string, checksum: string): map<string, string> {
    if name in ledger then ledger else ledger[name := checksum]
  }

  function Applied(store: Store, m: Migration, hash: string -> string): Store {
    Store(store.effects + [m], Recorded(store.ledger, m.name, hash(m.sql)))
  }

  function ApplyPending(store: Store, pending: seq<Migration>, fates: string -> Fate, hash: string -> string)
    : (Store, Exit)
    decreases |pending|
  {
    if pending == [] then (store, Success)
    else
      match fates(pending[0].name)
      case Applies => ApplyPending(Applied(store, pending[0], hash), pending[1..], fates, hash)
      case LostAfterCommit => (Applied(store, pending[0], hash), Crashed)
      case Unreadable => (store, Crashed)
      case LostBeforeCommit => (store, Crashed)
      case _ => (store, Failed)
  }

  function After(store: Store, boot: Boot, hash: string -> string): (Store, Exit) {
    if boot.files == [] then (store, Success)
    else if !boot.reachable then (store, Unreachable)
    else if boot.dryRun then (store, Success)
    else ApplyPending(store, Pending(boot.files, store.ledger.Keys), boot.fates, hash)
  }

  /** A connection with one open transaction. */
  class Connection {
    const hash: string -> string
    var committed: Store
    var current: Store

    constructor (hash: string -> string, committed: Store)
      ensures this.hash == hash && this.committed == committed && current == committed
    {
      this.hash := hash;
      this.committed, current := committed, committed;
    }

    method Execute(m: Migration)
      modifies this`current
      ensures current == old(current).(effects := old(current).effects + [m])
    {
      current := current.(effects := current.effects + [m]);
    }

    /** Insert into the ledger: the name is there afterwards, and every row that was there keeps its checksum. */
    method Record(name: string, checksum: string)
      modifies this`current
      ensures current.effects == old(current).effects
      ensures current.ledger.Keys == old(current).ledger.Keys + {name}
      ensures forall n <- old(current).ledger :: current.ledger[n] == old(current).ledger[n]
      ensures name !in old(current).ledger ==> current.ledger[name] == checksum
    {
      current := current.(ledger := Recorded(current.ledger, name, checksum));
    }

    method Commit()
      modifies this`committed
      ensures committed == current
    {
      committed := current;
    }

    method Rollback()
      modifies this`current
      ensures current == committed
    {
      current := committed;
    }

    /** Applies one pending file in its own transaction; stops the boot when `exit` is not `Success`. */
    method ApplyFile(m: Migration, fate: Fate) returns (exit: Exit)
      requires current == committed
      modifies this
      ensures current == committed
      ensures committed == if fate.Applies? || fate.LostAfterCommit? then Applied(old(committed), m, hash)
                           else old(committed)
      ensures exit == match fate
                      case Applies => Success
                      case LostAfterCommit => Crashed
                      case Unreadable => Crashed
                      case LostBeforeCommit => Crashed
                      case _ => Failed
    {
      if fate.Unreadable? {
        return Crashed;
      }
      var checksum := hash(m.sql);
      Execute(m);
      if fate.SqlFails? {
        Rollback();
        return Failed;
      }
      Record(m.name, checksum);
      assert current.ledger == Recorded(committed.ledger, m.name, checksum);
      if fate.RecordFails? || fate.CommitFails? {
        Rollback();
        return Failed;
      }
      if fate.LostBeforeCommit? {
        Rollback();
        return Crashed;
      }
      Commit();
      exit := if fate.LostAfterCommit? then Crashed else Success;
    }

    /** One boot of the runner. */
    method Run(boot: Boot) returns (exit: Exit, newCount: nat)
      requires current == committed
      modifies this
      ensures current == committed
      ensures (committed, exit) == After(old(committed), boot, hash)
      ensures exit.Success? ==> |committed.effects| == |old(committed).effects| + newCount
    {
      newCount := 0;
      if boot.files == [] {
        return Success, 0;
      }
      if !boot.reachable {
        return Unreachable, 0;
      }
      var applied := committed.ledger.Keys;
      if boot.dryRun {
        return Success, 0;
      }
      for i := 0 to |boot.files|
        invariant current == committed
        invariant ApplyPending(committed, Pending(boot.files[i..], applied), boot.fates, hash)
               == ApplyPending(old(committed), Pending(boot.files, applied), boot.fates, hash)
        invariant |committed.effects| == |old(committed).effects| + newCount
      {
        var m := boot.files[i];
        assert boot.files[i..][0] == m && boot.files[i..][1..] == boot.files[i + 1..];
        if m.name in applied {
          continue;
        }
        assert Pending(boot.files[i..], applied) == [m] + Pending(boot.files[i + 1..], applied);
        assert ([m] + Pending(boot.files[i + 1..], applied))[1..] == Pending(boot.files[i + 1..], applied);
        exit := ApplyFile(m, boot.fates(m.name));
        if exit != Success {
          return exit, newCount;
        }
        newCount := newCount + 1;
      }
      exit := Success;
    }
  }
}
