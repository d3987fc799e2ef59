/** The table of active sessions and its ID allocator (internal/protocol/session.go). */
module SessionTable {
  import opened Bytes

  datatype SessionType = Unsecured | Pase | Case

  datatype Session = Session(id: u16, kind: SessionType, localCounter: u32)

  /** `id + 1` in uint16, skipping 0. */
  function NextID(id: u16): (r: u16)
    ensures r != 0
  {
    if id == 0xFFFF then 1 else id + 1
  }

  /** The ID tried after `k` others when the search starts at `start`. */
  function Tried(start: u16, k: nat): (id: u16)
    requires start != 0
    ensures id != 0
  {
    (start - 1 + k) % 0xFFFF + 1
  }

  lemma TriedNext(start: u16, k: nat)
    requires start != 0
    ensures Tried(start, 0) == start && NextID(Tried(start, k)) == Tried(start, k + 1)
  {
    var m := start - 1 + k;
    assert (m + 1) % 0xFFFF == if m % 0xFFFF == 0xFFFE then 0 else m % 0xFFFF + 1;
  }

  /** Starting anywhere, 65535 tries reach every ID but 0, and the first to come round again is the start. */
  lemma TriesReachAll(start: u16, id: u16) returns (k: nat)
    requires start != 0 && id != 0
    ensures k < 0xFFFF && Tried(start, k) == id
  {
    k := if id >= start then id - start else id - start + 0xFFFF;
  }

  lemma NoEarlyReturn(start: u16, k: nat)
    requires start != 0 && 0 < k < 0xFFFF
    ensures Tried(start, k) != start
  {
  }

  /** The search finds the lowest free ID from the start up, or if there is none the lowest of all. */
  lemma FirstFree(start: u16, k: nat, found: u16, sessions: map<u16, Session>)
    requires start != 0 && k < 0xFFFF && Tried(start, k) == found
    requires forall j: nat :: j < k ==> Tried(start, j) in sessions
    ensures forall id: u16 :: id != 0 && id !in sessions ==>
              if found >= start then id < start || found <= id else found <= id < start
  {
    forall id: u16 | id != 0 && id !in sessions
      ensures if found >= start then id < start || found <= id else found <= id < start
    {
      var j := TriesReachAll(start, id);
      Before(start, j, id);
      Before(start, k, found);
    }
  }

  lemma Before(start: u16, k: nat, id: u16)
    requires start != 0 && k < 0xFFFF && Tried(start, k) == id
    ensures k == if id >= start then id - start else id - start + 0xFFFF
  {
  }

  class Table {
    var sessions: map<u16, Session>
    var nextID: u16

    ghost predicate Valid()
      reads this
    {
      && nextID != 0
      && forall id :: id in sessions ==> sessions[id].id == id
    }

    constructor ()
      ensures Valid() && sessions == map[] && nextID == 1
    {
      sessions, nextID := map[], 1;
    }

    /** The shared session with ID 0, created with counter `random` the first time. */
    method UnsecuredSession(random: u32) returns (s: Session)
      requires Valid()
      modifies this`sessions
      ensures Valid() && 0 in sessions && s == sessions[0]
      ensures sessions == if 0 in old(sessions) then old(sessions)
                          else old(sessions)[0 := Session(0, Unsecured, random)]
    {
      if 0 !in sessions {
        sessions := sessions[0 := Session(0, Unsecured, random)];
      }
      s := sessions[0];
    }

    /**
     * Allocates the first free ID at or after `nextID` in circular order.  It fails exactly when all of
     * 1..65535 are taken; every other entry, the unsecured one included, is left alone.
     */
    method CreateSession(kind: SessionType, random: u32) returns (created: Option<Session>)
      requires Valid()
      modifies this
      ensures Valid()
      ensures created.None? <==> forall id: u16 :: id != 0 ==> id in old(sessions)
      ensures created.None? ==> sessions == old(sessions) && nextID == old(nextID)
      ensures created.Some? ==>
        var s := created.value;
        && s == Session(s.id, kind, random) && s.id != 0 && s.id !in old(sessions)
        && sessions == old(sessions)[s.id := s] && nextID == NextID(s.id)
        && exists k: nat :: Tried(old(nextID), k) == s.id
             && forall j: nat :: j < k ==> Tried(old(nextID), j) in old(sessions)
      ensures created.Some? ==>
        var (s, start) := (created.value, old(nextID));
        && nextID == (if s.id == 65535 then 1 else s.id + 1)
        && forall id: u16 :: id != 0 && id !in old(sessions) ==>
             if s.id >= start then id < start || s.id <= id else s.id <= id < start
    {
      hide Tried;
      var startID := nextID;
      ghost var k: nat := 0;
      TriedNext(startID, 0);
      while true
        invariant nextID == Tried(startID, k) && k < 0xFFFF
        invariant forall j: nat :: j < k ==> Tried(startID, j) in sessions
        invariant sessions == old(sessions)
        decreases 0xFFFF - k
      {
        var id := nextID;
        nextID := if nextID == 0xFFFF then 0 else nextID + 1;
        if nextID == 0 {
          nextID := 1;
        }
        TriedNext(startID, k);
        if id !in sessions {
          var s := Session(id, kind, random);
          sessions := sessions[id := s];
          FirstFree(startID, k, id, old(sessions));
          return Some(s);
        }
        k := k + 1;
        if nextID == startID {
          if k < 0xFFFF { NoEarlyReturn(startID, k); }
          forall id: u16 | id != 0
            ensures id in sessions
          {
            var j := TriesReachAll(startID, id);
          }
          return None;
        }
        if k == 0xFFFF { FullCircle(startID); }
      }
    }

    method RemoveSession(id: u16)
      requires Valid()
      modifies this`sessions
      ensures Valid() && sessions == old(sessions) - {id}
    {
      sessions := sessions - {id};
    }
  }

  lemma FullCircle(start: u16)
    requires start != 0
    ensures Tried(start, 0xFFFF) == start
  {
  }
}
