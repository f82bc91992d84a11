/** The adapter of useCircle.ts: how a stored member row, local or remote,
    is presented to the pages (`toMillis`, `toCircleMember`), the two
    derived counts, the guards in front of the mark/reset verbs and the
    name defaulting of `createCircle`. The backend flag `useFirebase` is a
    parameter; the React state of the hook is not modelled. */
module CircleHook {
  import opened Wrappers
  import opened Text
  import opened Members
  import opened InviteCode
  import LocalStore
  import RemoteStore

  /** What a timestamp field of a stored row can hold. */
  datatype TimeValue =
    | Absent            // undefined or null
    | Number(n: int)    // a number of milliseconds
    | Stamp(millis: int) // a Firestore Timestamp, whose toMillis() gives `millis`
    | Other             // any other value

  /** `toMillis`: null for a missing or unrecognised value. */
  function ToMillis(v: TimeValue): (r: Option<int>)
    ensures v.Absent? || v.Other? ==> r.None?
    ensures v.Number? ==> r == Some(v.n)
    ensures v.Stamp? ==> r == Some(v.millis)
  {
    match v
    case Absent => None
    case Number(n) => Some(n)
    case Stamp(t) => Some(t)
    case Other => None
  }

  /** A member row as either store delivers it. `status` is None when the
      field is absent; `userId` is None when absent or null. */
  datatype RawMember = RawMember(
    id: string,
    displayName: string,
    phone: Option<string>,
    isSafe: bool,
    status: Option<string>,
    userId: Option<string>,
    lastSafeAt: TimeValue)

  /** The row the pages see. */
  datatype CircleMember = CircleMember(
    id: string,
    displayName: string,
    phone: Option<string>,
    isSafe: bool,
    status: MemberStatus,
    userId: Option<string>,
    lastSafeAt: Option<int>)

  /** The status string `toCircleMember` starts from: the stored one when
      present and non-empty, otherwise one derived from the flag. */
  function RawStatus(m: RawMember): (s: string)
    ensures m.status.Some? && m.status.value != "" ==> s == m.status.value
    ensures (m.status.None? || m.status == Some("")) ==> s == (if m.isSafe then "safe" else "unknown")
  {
    if m.status.Some? && m.status.value != "" then m.status.value
    else if m.isSafe then "safe" else "unknown"
  }

  function ToCircleMember(m: RawMember): (r: CircleMember)
    ensures r.id == m.id && r.displayName == m.displayName && r.phone == m.phone && r.isSafe == m.isSafe
    ensures r.userId == m.userId
    ensures r.lastSafeAt == ToMillis(m.lastSafeAt)
    ensures r.status == Sos <==> m.status == Some("sos")
    ensures r.status == Safe <==> m.status == Some("safe") || ((m.status.None? || m.status == Some("")) && m.isSafe)
    ensures m.status.Some? && m.status.value !in {"", "safe", "sos"} ==> r.status == Unknown
  {
    var raw := RawStatus(m);
    CircleMember(m.id, m.displayName, m.phone, m.isSafe,
      if raw == "safe" then Safe else if raw == "sos" then Sos else Unknown,
      m.userId, ToMillis(m.lastSafeAt))
  }

  /** A local row as `getMembers` hands it over. */
  function FromLocal(m: LocalStore.StoredMember): RawMember {
    RawMember(m.id, m.displayName, m.phone, m.isSafe, Some(StatusName(m.status)), m.userId,
      if m.lastSafeAt.Some? then Number(m.lastSafeAt.value) else Absent)
  }

  /** A remote document under its id, as `subscribeToMembers` hands it over. */
  function FromRemote(id: string, d: RemoteStore.MemberDoc): RawMember {
    RawMember(id, d.displayName, d.phone, d.isSafe,
      if d.status.Some? then Some(StatusName(d.status.value)) else None, d.userId,
      if d.lastSafeAt.Some? then Stamp(d.lastSafeAt.value) else Absent)
  }

  /** The row invariant as the pages see it. */
  predicate ViewOk(c: CircleMember) {
    Consistent(StatusFields(c.isSafe, c.status, c.lastSafeAt))
  }

  /** A local row keeping the store's invariant is shown with its own status
      and timestamp. */
  lemma {:induction false} LocalView(key: string, m: LocalStore.StoredMember)
    requires LocalStore.RowOk(key, m)
    ensures ToCircleMember(FromLocal(m)).status == m.status
    ensures ToCircleMember(FromLocal(m)).lastSafeAt == m.lastSafeAt
    ensures ToCircleMember(FromLocal(m)).id == key
    ensures ViewOk(ToCircleMember(FromLocal(m)))
  {
    match m.status
    case Unknown => assert StatusName(m.status) == "unknown";
    case Safe => assert StatusName(m.status) == "safe";
    case Sos => assert StatusName(m.status) == "sos";
  }

  /** A remote document keeping the store's invariant is shown consistently
      too; a document without a status field is shown as unknown. */
  lemma {:induction false} RemoteView(id: string, d: RemoteStore.MemberDoc)
    requires RemoteStore.DocOk(d)
    ensures d.status.Some? ==> ToCircleMember(FromRemote(id, d)).status == d.status.value
    ensures d.status.None? ==> ToCircleMember(FromRemote(id, d)).status == Unknown
    ensures ToCircleMember(FromRemote(id, d)).lastSafeAt == d.lastSafeAt
    ensures ViewOk(ToCircleMember(FromRemote(id, d)))
  {
    if d.status.Some? {
      match d.status.value
      case Unknown => assert StatusName(d.status.value) == "unknown";
      case Safe => assert StatusName(d.status.value) == "safe";
      case Sos => assert StatusName(d.status.value) == "sos";
    }
  }

  /** `members.filter((m) => !m.isSafe).length`. */
  function NotSafeCount(ms: seq<CircleMember>): (n: nat)
    ensures n <= |ms|
    ensures n == 0 <==> forall i :: 0 <= i < |ms| ==> ms[i].isSafe
  {
    if ms == [] then 0 else (if ms[0].isSafe then 0 else 1) + NotSafeCount(ms[1..])
  }

  /** `members.filter((m) => m.status === 'sos').length`. */
  function SosCount(ms: seq<CircleMember>): (n: nat)
    ensures n <= |ms|
    ensures n == 0 <==> forall i :: 0 <= i < |ms| ==> ms[i].status != Sos
  {
    if ms == [] then 0 else (if ms[0].status == Sos then 1 else 0) + SosCount(ms[1..])
  }

  /** Under the row invariant an SOS row is never safe, so it is among the
      not-safe rows. */
  lemma {:induction false} SosAmongNotSafe(ms: seq<CircleMember>)
    requires forall i :: 0 <= i < |ms| ==> ViewOk(ms[i])
    ensures SosCount(ms) <= NotSafeCount(ms)
  {
    if ms != [] {
      assert ViewOk(ms[0]);
      SosAmongNotSafe(ms[1..]);
    }
  }

  /** `!id` for an optional id: null, undefined and '' are falsy. */
  predicate Given(id: Option<string>) {
    id.Some? && id.value != ""
  }

  /** `markSafe`: nothing without a user id, otherwise every circle of the
      user's list, in the chosen store only; the store's other tables are
      kept, and the remote store logs one write per listed circle that has
      the user's document. */
  method MarkSafe(useFirebase: bool, userId: Option<string>, local: LocalStore.Store, remote: RemoteStore.RemoteStore, now: int)
    returns (r: Outcome<StoreError>)
    modifies local, remote
    ensures !Given(userId) ==> r == Pass && unchanged(local) && unchanged(remote)
    ensures Given(userId) && !useFirebase ==>
      && r == Pass && unchanged(remote)
      && local.members == LocalStore.MarkAll(old(local.members), IdSet(old(local.CircleIds(userId.value))), userId.value, SafeFields(now))
      && local.circles == old(local.circles) && local.users == old(local.users)
      && local.profiles == old(local.profiles) && local.chat == old(local.chat)
    ensures Given(userId) && useFirebase ==>
      var ids := RemoteStore.IdsIn(old(remote.users), userId.value);
      && unchanged(local)
      && remote.members == RemoteStore.MarkAll(old(remote.members), IdSet(ids), userId.value, SafeFields(now))
      && remote.writes == old(remote.writes) + RemoteStore.MarkWrites(old(remote.members), ids, userId.value)
      && remote.circles == old(remote.circles) && remote.users == old(remote.users)
      && (r == Pass <==> RemoteStore.AllHaveDoc(old(remote.members), ids, userId.value))
    ensures old(local.Valid()) ==> local.Valid()
    ensures old(remote.Valid()) ==> remote.Valid()
  {
    if !Given(userId) {
      return Pass;
    }
    if useFirebase {
      r := remote.SetMeSafeInAllCircles(userId.value, now);
    } else {
      local.SetMeSafeInAllCircles(userId.value, now);
      r := Pass;
    }
  }

  /** `markUnsafe`: nothing without a user id, otherwise every circle of the
      user's list, in the chosen store only, with the same framing and write
      log as `markSafe`. */
  method MarkUnsafe(useFirebase: bool, userId: Option<string>, local: LocalStore.Store, remote: RemoteStore.RemoteStore)
    returns (r: Outcome<StoreError>)
    modifies local, remote
    ensures !Given(userId) ==> r == Pass && unchanged(local) && unchanged(remote)
    ensures Given(userId) && !useFirebase ==>
      && r == Pass && unchanged(remote)
      && local.members == LocalStore.MarkAll(old(local.members), IdSet(old(local.CircleIds(userId.value))), userId.value, UnreportedFields)
      && local.circles == old(local.circles) && local.users == old(local.users)
      && local.profiles == old(local.profiles) && local.chat == old(local.chat)
    ensures Given(userId) && useFirebase ==>
      var ids := RemoteStore.IdsIn(old(remote.users), userId.value);
      && unchanged(local)
      && remote.members == RemoteStore.MarkAll(old(remote.members), IdSet(ids), userId.value, UnreportedFields)
      && remote.writes == old(remote.writes) + RemoteStore.MarkWrites(old(remote.members), ids, userId.value)
      && remote.circles == old(remote.circles) && remote.users == old(remote.users)
      && (r == Pass <==> RemoteStore.AllHaveDoc(old(remote.members), ids, userId.value))
    ensures old(local.Valid()) ==> local.Valid()
    ensures old(remote.Valid()) ==> remote.Valid()
  {
    if !Given(userId) {
      return Pass;
    }
    if useFirebase {
      r := remote.SetMeUnsafeInAllCircles(userId.value);
    } else {
      local.SetMeUnsafeInAllCircles(userId.value);
      r := Pass;
    }
  }

  /** `markSOS`: nothing without both ids, otherwise the current circle
      only; a remote update of a missing document fails and writes nothing. */
  method MarkSOS(useFirebase: bool, circleId: Option<string>, userId: Option<string>,
                 local: LocalStore.Store, remote: RemoteStore.RemoteStore)
    returns (r: Outcome<StoreError>)
    modifies local, remote
    ensures !(Given(circleId) && Given(userId)) ==> r == Pass && unchanged(local) && unchanged(remote)
    ensures Given(circleId) && Given(userId) && !useFirebase ==>
      && r == Pass && unchanged(remote)
      && local.members == LocalStore.Mark(old(local.members), circleId.value, userId.value, SosFields)
      && local.circles == old(local.circles) && local.users == old(local.users)
      && local.profiles == old(local.profiles) && local.chat == old(local.chat)
    ensures Given(circleId) && Given(userId) && useFirebase ==>
      && unchanged(local)
      && remote.members == RemoteStore.Mark(old(remote.members), circleId.value, userId.value, SosFields)
      && remote.circles == old(remote.circles) && remote.users == old(remote.users)
      && (r == Pass <==> RemoteStore.HasDoc(old(remote.members), circleId.value, userId.value))
      && (r == Pass ==> remote.writes == old(remote.writes) + multiset{RemoteStore.MemberPath(circleId.value, userId.value)})
      && (r.Fail? ==> unchanged(remote))
    ensures old(local.Valid()) ==> local.Valid()
    ensures old(remote.Valid()) ==> remote.Valid()
  {
    if !(Given(circleId) && Given(userId)) {
      return Pass;
    }
    if useFirebase {
      r := remote.SetMeSOS(circleId.value, userId.value);
    } else {
      local.SetMeSOS(circleId.value, userId.value);
      r := Pass;
    }
  }

  /** `resetAll`: nothing without a circle id, otherwise every row of that
      circle in the chosen store, one remote write per document. */
  method ResetAll(useFirebase: bool, circleId: Option<string>, local: LocalStore.Store, remote: RemoteStore.RemoteStore)
    modifies local, remote
    ensures !Given(circleId) ==> unchanged(local) && unchanged(remote)
    ensures Given(circleId) && !useFirebase ==>
      && unchanged(remote)
      && (circleId.value in old(local.members) ==>
            local.members == old(local.members)[circleId.value := LocalStore.ResetTable(old(local.members[circleId.value]))])
      && (circleId.value !in old(local.members) ==> local.members == old(local.members))
      && local.circles == old(local.circles) && local.users == old(local.users)
      && local.profiles == old(local.profiles) && local.chat == old(local.chat)
    ensures Given(circleId) && useFirebase ==>
      && unchanged(local)
      && (circleId.value in old(remote.members) ==>
            && remote.members == old(remote.members)[circleId.value := RemoteStore.ResetDocs(old(remote.members[circleId.value]))]
            && remote.writes == old(remote.writes) + RemoteStore.MemberPaths(circleId.value, old(remote.members[circleId.value]).Keys)
            && remote.circles == old(remote.circles) && remote.users == old(remote.users))
      && (circleId.value !in old(remote.members) ==> unchanged(remote))
    ensures old(local.Valid()) ==> local.Valid()
    ensures old(remote.Valid()) ==> remote.Valid()
  {
    if !Given(circleId) {
      return;
    }
    if useFirebase {
      remote.ResetAllMembers(circleId.value);
    } else {
      local.ResetAllMembers(circleId.value);
    }
  }

  /** `circleName?.trim() || 'המעגל שלי'`. */
  function HookCircleName(circleName: Option<string>): (r: string)
    ensures r != []
    ensures circleName.Some? && Trim(circleName.value) != [] ==> r == Trim(circleName.value)
    ensures circleName.None? || Trim(circleName.value) == [] ==> r == DefaultCircleName
    ensures r == DefaultCircleName || (!IsSpace(r[0]) && !IsSpace(r[|r| - 1]))
  {
    if circleName.Some? && Trim(circleName.value) != [] then Trim(circleName.value) else DefaultCircleName
  }

  /** `createCircle` of the hook: the chosen store receives the defaulted
      name, so a stored circle name is never blank; the circle, the owner's
      row and the owner's list of circles are written as the store writes
      them, and nothing else changes. */
  method CreateCircle(useFirebase: bool, ownerId: string, ownerName: string, circleName: Option<string>,
                      ownerPhone: Option<string>, local: LocalStore.Store, remote: RemoteStore.RemoteStore,
                      draws: seq<real>, now: int)
    returns (circleId: string, inviteCode: string)
    requires |draws| == CodeLength && forall i :: 0 <= i < |draws| ==> IsRandom(draws[i])
    modifies local, remote
    ensures circleId == inviteCode == CodeFrom(draws)
    ensures !useFirebase ==>
      && unchanged(remote)
      && local.circles == old(local.circles)[circleId :=
           LocalStore.StoredCircle(circleId, HookCircleName(circleName), ownerId, circleId, now)]
      && local.members == old(local.members)[circleId :=
           old(local.TableOf(circleId))[ownerId := LocalStore.NewRow(ownerId, Some(ownerId), ownerName, ownerPhone, now)]]
      && local.users == old(local.users)[ownerId := WithCircle(old(local.CircleIds(ownerId)), circleId)]
      && local.profiles == old(local.profiles) && local.chat == old(local.chat)
    ensures useFirebase ==>
      && unchanged(local)
      && remote.circles == old(remote.circles)[circleId :=
           RemoteStore.CircleDoc(HookCircleName(circleName), ownerId, circleId, now)]
      && remote.members == old(remote.members)[circleId :=
           old(remote.DocsOf(circleId))[ownerId := RemoteStore.NewDoc(Some(ownerId), ownerName, ownerPhone, now)]]
      && remote.users == RemoteStore.Indexed(old(remote.users), ownerId, circleId)
      && remote.writes == old(remote.writes) + multiset{RemoteStore.CirclePath(circleId), RemoteStore.MemberPath(circleId, ownerId)}
                          + RemoteStore.IndexWrite(old(remote.users), ownerId, circleId)
    ensures old(local.Valid()) ==> local.Valid()
    ensures old(remote.Valid()) ==> remote.Valid()
  {
    var name := HookCircleName(circleName);
    if useFirebase {
      circleId, inviteCode := remote.CreateCircle(ownerId, ownerName, name, ownerPhone, draws, now);
    } else {
      circleId, inviteCode := local.CreateCircle(ownerId, ownerName, name, ownerPhone, draws, now);
    }
  }
}
