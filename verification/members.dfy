/** Vocabulary shared by the two circle stores (mockStorage.ts and
    circleService.ts) and by the hook that wraps them: member status, the
    status state machine, the membership cap, store errors, the summary
    record and the per-user list of circle ids. */
module Members {
  import opened Wrappers

  /** The membership cap: hard-coded as 25 in both stores and exported as
      MAX_CIRCLE_MEMBERS by the hook. */
  const MaxCircleMembers: nat := 25

  /** Name given to a circle created with an empty name. */
  const DefaultCircleName := "המעגל שלי"

  datatype MemberStatus = Unknown | Safe | Sos

  /** The string stored for each status. */
  function StatusName(s: MemberStatus): (r: string)
    ensures r in {"unknown", "safe", "sos"}
  {
    match s
    case Unknown => "unknown"
    case Safe => "safe"
    case Sos => "sos"
  }

  /** The three fields every status writer sets together. */
  datatype StatusFields = StatusFields(isSafe: bool, status: MemberStatus, lastSafeAt: Option<int>)

  /** The invariant the status machine keeps on every row:
      isSafe <==> status == safe <==> lastSafeAt != null. */
  predicate Consistent(f: StatusFields) {
    && (f.isSafe <==> f.status == Safe)
    && (f.isSafe <==> f.lastSafeAt.Some?)
  }

  /** What setMeSafe writes. */
  function SafeFields(now: int): StatusFields {
    StatusFields(true, Safe, Some(now))
  }

  /** What setMeUnsafe and resetAllMembers write, and what a new row of
      create, join and add-by-phone carries. */
  const UnreportedFields := StatusFields(false, Unknown, None)

  /** What setMeSOS writes. */
  const SosFields := StatusFields(false, Sos, None)

  /** The status machine: any state may move to any state, and the fields
      written for a move into `target` are consistent, carry `target`, and
      set lastSafeAt only when the target is safe. */
  function Transition(target: MemberStatus, now: int): (f: StatusFields)
    ensures Consistent(f)
    ensures f.status == target
    ensures f.lastSafeAt == (if target == Safe then Some(now) else None)
  {
    match target
    case Safe => SafeFields(now)
    case Unknown => UnreportedFields
    case Sos => SosFields
  }

  /** Errors the stores throw. NoDocument is the remote store's refusal to
      update a document that does not exist. */
  datatype StoreError = NotOwner | CannotRemoveSelf | CircleFull | DuplicatePhone | NoDocument {
    function Message(): string {
      match this
      case NotOwner => "רק בעל המעגל יכול להסיר חברים"
      case CannotRemoveSelf => "לא ניתן להסיר את עצמך"
      case CircleFull => "המעגל מלא (עד 25 חברים)"
      case DuplicatePhone => "חבר עם מספר טלפון זה כבר במעגל"
      case NoDocument => "No document to update"
    }
  }

  datatype Summary = Summary(total: nat, safe: nat, sos: nat)

  /** One entry of a user's circle list as shown on the circles page. */
  datatype CircleInfo = CircleInfo(circleId: string, name: string)

  /** The profile both stores return, every field defaulting to ''. */
  datatype Profile = Profile(displayName: string, phone: string, city: string, location: string, address: string)

  /** A partial profile: None is a field the caller did not give. */
  datatype ProfilePatch = ProfilePatch(
    displayName: Option<string>, phone: Option<string>, city: Option<string>,
    location: Option<string>, address: Option<string>)

  /** A subset of the keys has no more elements than the keys. */
  lemma {:induction false} SubsetCard<K>(a: set<K>, b: set<K>)
    requires a <= b
    ensures |a| <= |b|
  {
    assert b == a + (b - a);
  }

  /** The membership count after one insertion at a key: one more when the
      key is new, and never beyond the cap when the count was below it. */
  lemma InsertCount<V>(t: map<string, V>, k: string, v: V)
    ensures k !in t ==> |t[k := v]| == |t| + 1
    ensures k in t ==> |t[k := v]| == |t|
    ensures |t| < MaxCircleMembers ==> |t[k := v]| <= MaxCircleMembers
  {
    if k !in t {
      assert t[k := v].Keys == t.Keys + {k};
    } else {
      assert t[k := v].Keys == t.Keys;
    }
  }

  predicate NoDuplicates(ids: seq<string>) {
    forall i, j :: 0 <= i < j < |ids| ==> ids[i] != ids[j]
  }

  /** The list after `myCircleIds.push(id)` guarded by `includes(id)`. */
  function WithCircle(ids: seq<string>, id: string): (r: seq<string>)
    ensures id in r
    ensures forall x :: x in r <==> x in ids || x == id
    ensures NoDuplicates(ids) ==> NoDuplicates(r)
    ensures id in ids ==> r == ids
  {
    if id in ids then ids else ids + [id]
  }

  /** The ids of a list, as a set. */
  function IdSet(ids: seq<string>): (r: set<string>)
    ensures forall x :: x in r <==> x in ids
  {
    set x | x in ids
  }

  /** Walking a list one id further adds that id to the set walked. */
  lemma IdSetSnoc(ids: seq<string>, i: nat)
    requires i < |ids|
    ensures IdSet(ids[..i + 1]) == IdSet(ids[..i]) + {ids[i]}
  {
    assert ids[..i + 1] == ids[..i] + [ids[i]];
  }

  lemma WithCircleIdempotent(ids: seq<string>, id: string)
    ensures WithCircle(WithCircle(ids, id), id) == WithCircle(ids, id)
  {
  }

  /** `ids.filter((x) => x !== id)`. */
  function Without(ids: seq<string>, id: string): (r: seq<string>)
    ensures |r| <= |ids|
    ensures forall x :: x in r <==> x in ids && x != id
    ensures NoDuplicates(ids) ==> NoDuplicates(r)
  {
    if ids == [] then []
    else if ids[0] == id then Without(ids[1..], id)
    else
      assert NoDuplicates(ids) ==> ids[0] !in ids[1..];
      [ids[0]] + Without(ids[1..], id)
  }

  /** The filter removes something exactly when the id was present: the
      remote store's `next.length === ids.length` test detects absence. */
  lemma {:induction false} WithoutKeepsLength(ids: seq<string>, id: string)
    ensures |Without(ids, id)| == |ids| <==> id !in ids
  {
    if ids != [] {
      WithoutKeepsLength(ids[1..], id);
      assert ids == [ids[0]] + ids[1..];
    }
  }

  /** Removing an absent id leaves the list as it was. */
  lemma {:induction false} WithoutAbsent(ids: seq<string>, id: string)
    requires id !in ids
    ensures Without(ids, id) == ids
  {
    if ids != [] {
      WithoutAbsent(ids[1..], id);
      assert ids == [ids[0]] + ids[1..];
    }
  }
}
