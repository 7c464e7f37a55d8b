/** The credential table `cred_tbl`: nthreads+1 (uid, gid) slots, an
    unused slot holding the pair ((uid_t)-1, (gid_t)-1). */
module Creds {
  import opened Base

  /** The sentinel pair of an unused slot. */
  const Unused := Owner(NO_ID, NO_ID)

  /** The table as `main` seeds it: every one of the nthreads+1 slots unused. */
  function SeedTable(nthreads: nat): (t: seq<Owner>)
    ensures |t| == nthreads + 1
    ensures forall i :: 0 <= i < |t| ==> t[i] == Unused
  {
    seq(nthreads + 1, _ => Unused)
  }

  /** No pair other than the sentinel occupies two slots. */
  predicate NoDuplicatePairs(t: seq<Owner>) {
    forall i, j :: 0 <= i < j < |t| && t[i] != Unused ==> t[i] != t[j]
  }

  /** The first loop of `get_cred`: the first slot at or after i holding
      the pair, or null. */
  function FindPair(t: seq<Owner>, pair: Owner, i: nat): (r: Option<nat>)
    requires i <= |t|
    ensures r.Some? ==> i <= r.value < |t| && t[r.value] == pair
    ensures r.Some? ==> forall j :: i <= j < r.value ==> t[j] != pair
    ensures r.None? ==> forall j :: i <= j < |t| ==> t[j] != pair
    decreases |t| - i
  {
    if i == |t| then None
    else if t[i] == pair then Some(i)
    else FindPair(t, pair, i + 1)
  }

  /** The second loop of `get_cred` AS WRITTEN: its body ends in an
      unconditional `break`, so only slot 0 is ever looked at. */
  function ClaimSlot(t: seq<Owner>): Option<nat> {
    if |t| > 0 && t[0] == Unused then Some(0) else None
  }

  /** `get_cred`: the first slot already holding (uid, gid); otherwise slot
      0 claimed for the pair if slot 0 is unused; otherwise null. */
  function GetCred(t: seq<Owner>, uid: Id, gid: Id): (r: (seq<Owner>, Option<nat>))
    ensures |r.0| == |t|
    ensures r.1.Some? ==> r.1.value < |t| && r.0[r.1.value] == Owner(uid, gid)
    ensures Owner(uid, gid) in t ==>
              r.0 == t && r.1.Some? && t[r.1.value] == Owner(uid, gid)
              && forall j :: 0 <= j < r.1.value ==> t[j] != Owner(uid, gid)
    ensures Owner(uid, gid) !in t ==>
              if |t| > 0 && t[0] == Unused then r == (t[0 := Owner(uid, gid)], Some(0))
              else r == (t, None)
    ensures NoDuplicatePairs(t) ==> NoDuplicatePairs(r.0)
  {
    var pair := Owner(uid, gid);
    match FindPair(t, pair, 0)
    case Some(i) => (t, Some(i))
    case None =>
      match ClaimSlot(t)
      case Some(i) => (t[i := pair], Some(i))
      case None => (t, None)
  }

  /** `rel_cred`: the slot goes back to the unused pair. */
  function RelCred(t: seq<Owner>, slot: nat): (r: seq<Owner>)
    requires slot < |t|
    ensures |r| == |t| && r[slot] == Unused
    ensures forall j :: 0 <= j < |t| && j != slot ==> r[j] == t[j]
  {
    t[slot := Unused]
  }

  /** Releasing the slot `get_cred` just claimed gives back the table it
      started from. */
  lemma GetRelRoundTrip(t: seq<Owner>, uid: Id, gid: Id)
    requires Owner(uid, gid) !in t && |t| > 0 && t[0] == Unused
    ensures GetCred(t, uid, gid).1 == Some(0)
    ensures RelCred(GetCred(t, uid, gid).0, 0) == t
  {
  }

  /** The `break` in the second loop: with slot 0 in use, a new pair gets
      no slot even though slot 1 is unused. */
  lemma OnlySlotZeroClaimable()
    ensures var t := [Owner(1000, 1000), Unused];
            GetCred(t, 7, 7) == (t, None)
  {
    var t := [Owner(1000, 1000), Unused];
    assert Owner(7, 7) != t[0] && Owner(7, 7) != t[1];
    assert Owner(7, 7) !in t;
  }

  /** Asking twice for the same pair yields the same slot and changes the
      table at most once. */
  lemma GetCredIdempotent(t: seq<Owner>, uid: Id, gid: Id)
    requires GetCred(t, uid, gid).1.Some?
    ensures GetCred(GetCred(t, uid, gid).0, uid, gid) == (GetCred(t, uid, gid).0, GetCred(t, uid, gid).1)
  {
    var (t1, s1) := GetCred(t, uid, gid);
    if Owner(uid, gid) !in t {
      assert t1[0] == Owner(uid, gid);
      assert Owner(uid, gid) in t1;
    }
  }
}
