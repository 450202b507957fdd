/**
 The durable id allocator: sequence numbers are handed out below a ceiling that is committed to
 the medium first, and a restart continues at the committed ceiling.

 A commit that reports an error may or may not have reached the medium.
 */
module Ids {

  import opened Common

  datatype Commit = Done | Lost | Landed

  datatype Outcome = Issued(seqNo: nat) | Success | StorageError | IdentifierExhausted

  /** Every id is larger than all before it. */
  ghost predicate Increasing(s: seq<nat>) {
    forall i, j :: 0 <= i < j < |s| ==> s[i] < s[j]
  }

  class Allocator {
    const batch: nat
    var durable: nat
    var up: bool
    var current: nat
    var ceiling: nat
    ghost var issued: seq<nat>

    /**
     All ids ever issued lie at or below the committed ceiling, none lies ahead of the counter, and the counter
     lies within the ceiling or at least within the one that will be committed next.
     */
    ghost predicate Safe()
      reads this
    {
      && Increasing(issued) && durable <= U64_MAX
      && (forall i :: 0 <= i < |issued| ==> issued[i] <= durable)
      && (up ==> ceiling <= durable && (current <= ceiling || current < ceiling + batch))
      && (up ==> forall i :: 0 <= i < |issued| ==> issued[i] <= current)
    }

    /** A medium that holds some ceiling, and no allocator yet. */
    constructor (batch: nat, initial: nat)
      requires initial <= U64_MAX
      ensures Safe() && !up && issued == [] && durable == initial && this.batch == batch
    {
      this.batch := batch;
      durable, up, current, ceiling, issued := initial, false, 0, 0, [];
    }

    method Store(value: nat, c: Commit) returns (ok: bool)
      modifies `durable
      ensures ok <==> c == Done
      ensures durable == if c == Lost then old(durable) else value
    {
      if c != Lost {
        durable := value;
      }
      return c == Done;
    }

    /** Everything in memory is gone. */
    method Crash()
      modifies `up
      ensures !up && (old(Safe()) ==> Safe())
    {
      up := false;
    }

    /** Starts at the committed ceiling and commits the next one, burning what was reserved and not issued. */
    method Recover(readable: bool, c: Commit) returns (r: Outcome)
      requires !up
      modifies `durable, `up, `current, `ceiling
      ensures old(Safe()) ==> Safe()
      ensures old(durable) <= durable
      ensures r == Success <==> readable && old(durable) + batch <= U64_MAX && c == Done
      ensures r == Success <==> up
      ensures up ==> current == old(durable) && ceiling == durable == current + batch
    {
      if !readable {
        return StorageError;
      }
      var start := durable;
      if start + batch > U64_MAX {
        return IdentifierExhausted;
      }
      var ok := Store(start + batch, c);
      if !ok {
        return StorageError;
      }
      up, current, ceiling := true, start, start + batch;
      return Success;
    }

    /** The next id, covered by the committed ceiling exactly when the counter lay below the ceiling now in force. */
    method Allocate(c: Commit) returns (r: Outcome)
      requires up
      modifies `durable, `current, `ceiling, `issued
      ensures r.Issued? <==> (old(current) < old(ceiling) || (old(ceiling) + batch <= U64_MAX && c == Done)) && old(current) < U64_MAX
      ensures r.Issued? ==> r.seqNo == current == old(current) + 1 && issued == old(issued) + [r.seqNo]
      ensures !r.Issued? ==> issued == old(issued) && current == old(current)
      ensures r.Issued? ==> ceiling == if old(current) < old(ceiling) then old(ceiling) else old(ceiling) + batch
      ensures r.Issued? && old(current) >= old(ceiling) ==> durable == ceiling
      ensures r.Issued? ==> (r.seqNo <= ceiling <==> old(current) < old(ceiling) + batch)
      ensures old(Safe()) && batch >= 1 ==> Safe() && (r == IdentifierExhausted ==> old(ceiling) + batch > U64_MAX)
    {
      if current >= ceiling {
        var next := ceiling + batch;
        if next > U64_MAX {
          return IdentifierExhausted;
        }
        var ok := Store(next, c);
        if !ok {
          return StorageError;
        }
        ceiling := next;
      }
      if current + 1 > U64_MAX {
        return IdentifierExhausted;
      }
      current := current + 1;
      issued := issued + [current];
      return Issued(current);
    }

    /**
     Raises the counter; when that fails the allocator is still safe exactly if the floor lies within the old
     ceiling or the one that would be committed next.
     */
    method AdvanceFloor(floor: nat, c: Commit) returns (r: Outcome)
      requires up && floor <= U64_MAX
      modifies `durable, `current, `ceiling
      ensures current == if floor > old(current) then floor else old(current)
      ensures r == Success && floor > old(current) && floor >= old(ceiling) ==> ceiling == durable == floor + batch
      ensures r == Success && old(Safe()) ==> Safe()
      ensures r != Success && old(Safe()) ==> (Safe() <==> floor <= old(ceiling) || floor < old(ceiling) + batch)
      ensures r == Success <==> floor <= old(current) || floor < old(ceiling) || (floor + batch <= U64_MAX && c == Done)
      ensures r != Success ==> ceiling == old(ceiling) && old(ceiling) <= floor
      ensures r != Success ==> durable == old(durable) || durable == floor + batch
    {
      if floor > current {
        current := floor;
        if current >= ceiling {
          var next := current + batch;
          if next > U64_MAX {
            return IdentifierExhausted;
          }
          var ok := Store(next, c);
          if !ok {
            return StorageError;
          }
          ceiling := next;
        }
      }
      return Success;
    }
  }

  datatype Event = Crash | Recover(readable: bool, c: Commit) | Allocate(c: Commit) | AdvanceFloor(floor: nat, c: Commit)

  /**
   With a batch of at least one, no id is issued twice until an attempt to raise the floor to or beyond the
   next ceiling fails.
   */
  method Run(batch: nat, initial: nat, events: seq<Event>) returns (a: Allocator, overrun: bool)
    requires batch >= 1 && initial <= U64_MAX
    requires forall i :: 0 <= i < |events| && events[i].AdvanceFloor? ==> events[i].floor <= U64_MAX
    ensures !overrun ==> a.Safe() && forall i, j :: 0 <= i < j < |a.issued| ==> a.issued[i] != a.issued[j]
    ensures overrun ==> exists i ::
      0 <= i < |events| && events[i].AdvanceFloor? && (events[i].c != Done || events[i].floor + batch > U64_MAX)
  {
    a := new Allocator(batch, initial);
    overrun := false;
    for k := 0 to |events|
      invariant fresh(a) && a.batch == batch && a.Safe() && !overrun
    {
      match events[k]
      case Crash =>
        a.Crash();
      case Recover(readable, c) =>
        if !a.up {
          var _ := a.Recover(readable, c);
        }
      case Allocate(c) =>
        if a.up {
          var _ := a.Allocate(c);
        }
      case AdvanceFloor(floor, c) =>
        if a.up {
          var next := a.ceiling + batch;
          var r := a.AdvanceFloor(floor, c);
          if r != Success && floor >= next {
            overrun := true;
            return;
          }
        }
    }
  }

  /** There the promise ends: after such a failure a restart can issue the next id a second time. */
  method OverrunDuplicates(a: Allocator, floor: nat, c: Commit)
    requires a.Safe() && a.up && a.batch >= 1 && c != Done && a.ceiling + a.batch <= floor && floor + a.batch <= U64_MAX
    modifies a
    ensures |a.issued| == |old(a.issued)| + 2
    ensures a.issued[|a.issued| - 2] == a.issued[|a.issued| - 1] == floor + 1
  {
    var r := a.AdvanceFloor(floor, c);
    r := a.Allocate(Done);
    a.Crash();
    r := a.Recover(true, Done);
    r := a.AdvanceFloor(floor, Done);
    r := a.Allocate(Done);
  }

  /** For example with the daemons' batch of 64 and a floor of 1000. */
  method FailedFloorDuplicates() returns (a: Allocator)
    ensures exists i, j :: 0 <= i < j < |a.issued| && a.issued[i] == a.issued[j]
  {
    a := new Allocator(64, 0);
    var r := a.Recover(true, Done);
    OverrunDuplicates(a, 1000, Lost);
    assert a.issued[0] == a.issued[1];
  }

  /** With an empty batch, two restarts issue the same id. */
  method EmptyBatchDuplicates() returns (a: Allocator)
    ensures exists i, j :: 0 <= i < j < |a.issued| && a.issued[i] == a.issued[j]
  {
    a := new Allocator(0, 0);
    var r := a.Recover(true, Done);
    r := a.Allocate(Done);
    a.Crash();
    r := a.Recover(true, Done);
    r := a.Allocate(Done);
    assert a.issued[0] == 1 && a.issued[1] == 1;
  }
}
