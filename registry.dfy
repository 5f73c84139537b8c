/** The verification registry: an in-memory map from a participant's user id
    to the pending captcha record for that participant, with expiry. Time is
    an explicit integer instant (nanoseconds), passed where the source reads
    the clock. */
module Registry {
  import opened Base

  /** One pending challenge. Instants are nanoseconds since the Unix epoch. */
  datatype CaptchaData = CaptchaData(
    chatId: int,
    userId: int,
    answer: string,
    expiresAt: int,
    photoMessageId: int)

  type States = map<int, CaptchaData>

  /** The record for `userId`, if there is one. */
  function Lookup(states: States, userId: int): (r: Option<CaptchaData>)
    ensures r.Some? <==> userId in states
    ensures r.Some? ==> r.value == states[userId]
  {
    if userId in states then Some(states[userId]) else None
  }

  /** `t.After(u)`: strictly later. */
  predicate After(t: int, u: int) {
    t > u
  }

  /** What IsExpired answers at instant `now`: an absent record counts as
      expired, a present one is expired only strictly after its expiry. */
  predicate ExpiredAt(states: States, userId: int, now: int) {
    userId !in states || After(now, states[userId].expiresAt)
  }

  /** The registry after CleanupExpired at instant `now`. */
  function Swept(states: States, now: int): (r: States)
    ensures forall u :: u in r <==> u in states && !After(now, states[u].expiresAt)
    ensures forall u :: u in r ==> r[u] == states[u]
  {
    map u | u in states && !After(now, states[u].expiresAt) :: states[u]
  }

  class CaptchaFSM {
    var states: States

    /** NewCaptchaFSM: an empty registry. */
    constructor ()
      ensures states == map[]
    {
      states := map[];
    }

    /** Inserts or replaces the record of `userId`. */
    method SetState(userId: int, data: CaptchaData)
      modifies this
      ensures states == old(states)[userId := data]
    {
      states := states[userId := data];
    }

    /** The record of `userId` and whether it is present. */
    method GetState(userId: int) returns (data: Option<CaptchaData>)
      ensures data.Some? <==> userId in states
      ensures data.Some? ==> data.value == states[userId]
    {
      if userId in states {
        data := Some(states[userId]);
      } else {
        data := None;
      }
    }

    /** Removes the record of `userId`; no effect when there is none. */
    method DeleteState(userId: int)
      modifies this
      ensures states == old(states) - {userId}
    {
      states := states - {userId};
    }

    /** True when `userId` has no record, or `now` is strictly after its expiry. */
    method IsExpired(userId: int, now: int) returns (expired: bool)
      ensures expired <==> userId !in states || now > states[userId].expiresAt
    {
      if userId !in states {
        return true;
      }
      expired := After(now, states[userId].expiresAt);
    }

    /** Deletes, one key at a time, every record whose expiry `now` is
        strictly after. */
    method CleanupExpired(now: int)
      modifies this
      ensures states == Swept(old(states), now)
    {
      var pending := states.Keys;
      while pending != {}
        invariant pending <= states.Keys <= old(states).Keys
        invariant forall u :: u in states ==> states[u] == old(states)[u]
        invariant forall u :: u in old(states) && u !in pending ==>
          (u in states <==> !After(now, old(states)[u].expiresAt))
        decreases pending
      {
        // Pick gives a witness, so the choice of `u` below is known to exist.
        ghost var some := Pick(pending);
        var u :| u in pending;
        if After(now, states[u].expiresAt) {
          states := states - {u};
        }
        pending := pending - {u};
      }
      ghost var swept := Swept(old(states), now);
      assert forall u :: u in states <==> u in swept;
      assert forall u :: u in states ==> states[u] == swept[u];
    }
  }

  // ---------------------------------------------------------------------
  // Laws of the registry operations, stated on the map they act on.

  /** After SetState(u, d), GetState(u) gives d. */
  lemma SetThenGet(states: States, u: int, d: CaptchaData)
    ensures Lookup(states[u := d], u) == Some(d)
  {
  }

  /** Two writes to the same key: the last one wins. */
  lemma LastWriteWins(states: States, u: int, d1: CaptchaData, d2: CaptchaData)
    ensures states[u := d1][u := d2] == states[u := d2]
    ensures Lookup(states[u := d1][u := d2], u) == Some(d2)
  {
  }

  /** After DeleteState(u), GetState(u) is absent, and a second delete
      changes nothing; deleting an absent key is a no-op. */
  lemma DeleteLaws(states: States, u: int)
    ensures Lookup(states - {u}, u) == None
    ensures (states - {u}) - {u} == states - {u}
    ensures u !in states ==> states - {u} == states
  {
  }

  /** SetState and DeleteState on `u` leave every other key's entry alone. */
  lemma OtherKeysUnchanged(states: States, u: int, d: CaptchaData, v: int)
    requires v != u
    ensures Lookup(states[u := d], v) == Lookup(states, v)
    ensures Lookup(states - {u}, v) == Lookup(states, v)
  {
  }

  /** IsExpired is true for an absent record; for a present one it is true
      exactly when `now` is strictly after the expiry, so it is false at the
      expiry instant itself and true at every later instant. */
  lemma ExpiryBoundary(states: States, u: int, now: int)
    ensures u !in states ==> ExpiredAt(states, u, now)
    ensures u in states ==> (ExpiredAt(states, u, now) <==> now > states[u].expiresAt)
    ensures u in states ==> !ExpiredAt(states, u, states[u].expiresAt)
    ensures ExpiredAt(states, u, now) ==> forall later :: later >= now ==> ExpiredAt(states, u, later)
  {
  }

  /** CleanupExpired removes exactly the records with expiry < now and keeps
      every other record with its value. */
  lemma SweptExactly(states: States, now: int, u: int)
    ensures u in Swept(states, now) <==> u in states && states[u].expiresAt >= now
    ensures u in Swept(states, now) ==> Swept(states, now)[u] == states[u]
  {
  }

  /** Sweeping twice at the same instant is the same as sweeping once. */
  lemma SweptIdempotent(states: States, now: int)
    ensures Swept(Swept(states, now), now) == Swept(states, now)
  {
  }

  /** When every record is expired, the sweep leaves the registry empty. */
  lemma SweptAllExpired(states: States, now: int)
    requires forall u :: u in states ==> now > states[u].expiresAt
    ensures Swept(states, now) == map[]
  {
    var r := Swept(states, now);
    forall u
      ensures u !in r
    {
      if u in states {
        assert After(now, states[u].expiresAt);
      }
    }
    NoKeysIsEmpty(r);
  }

  // ---------------------------------------------------------------------
  // Sequences of operations.

  datatype Op = Put(userId: int, data: CaptchaData) | Delete(userId: int) | Sweep(now: int)

  function Apply(states: States, op: Op): States {
    match op
    case Put(u, d) => states[u := d]
    case Delete(u) => states - {u}
    case Sweep(now) => Swept(states, now)
  }

  function ApplyAll(states: States, ops: seq<Op>): States
    decreases |ops|
  {
    if ops == [] then states else ApplyAll(Apply(states, ops[0]), ops[1..])
  }

  /** Once `u` is deleted, and no later operation sets `u`, GetState(u)
      stays absent. */
  lemma {:induction false} DeletedStaysAbsent(states: States, u: int, ops: seq<Op>)
    requires forall i :: 0 <= i < |ops| ==> !(ops[i].Put? && ops[i].userId == u)
    ensures Lookup(ApplyAll(states - {u}, ops), u) == None
    decreases |ops|
  {
    if ops != [] {
      var next := Apply(states - {u}, ops[0]);
      assert u !in next;
      assert next - {u} == next;
      DeletedStaysAbsent(next, u, ops[1..]);
    }
  }

  /** The registry holds at most one record per participant, and whatever
      sequence of operations runs, each record stays keyed by its own
      recorded user id if it started that way and every Put respects it. */
  ghost predicate KeyedByUser(states: States) {
    forall u :: u in states ==> states[u].userId == u
  }

  lemma {:induction false} KeyedByUserPreserved(states: States, ops: seq<Op>)
    requires KeyedByUser(states)
    requires forall i :: 0 <= i < |ops| && ops[i].Put? ==> ops[i].data.userId == ops[i].userId
    ensures KeyedByUser(ApplyAll(states, ops))
    decreases |ops|
  {
    if ops != [] {
      KeyedByUserPreserved(Apply(states, ops[0]), ops[1..]);
    }
  }
}
