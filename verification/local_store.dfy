/** The offline circle store of mockStorage.ts. Each operation there loads
    whole JSON tables from localStorage, changes them in place and writes
    them back; here the tables are the map fields of one `Store` object and
    loading/saving is the identity. Date.now() and Math.random() are
    parameters (`now`, `draws`, `suffix`). */
module LocalStore {
  import opened Wrappers
  import opened Text
  import opened Members
  import opened InviteCode

  datatype StoredCircle = StoredCircle(id: string, name: string, ownerId: string, inviteCode: string, createdAt: int)

  datatype StoredMember = StoredMember(
    id: string,
    userId: Option<string>,
    displayName: string,
    phone: Option<string>,
    isSafe: bool,
    status: MemberStatus,
    lastSafeAt: Option<int>,
    addedAt: int)
  {
    function Fields(): StatusFields {
      StatusFields(isSafe, status, lastSafeAt)
    }

    /** The row after the three status fields are assigned. */
    function With(f: StatusFields): (m: StoredMember)
      ensures m.Fields() == f
      ensures m.(isSafe := isSafe, status := status, lastSafeAt := lastSafeAt) == this
    {
      this.(isSafe := f.isSafe, status := f.status, lastSafeAt := f.lastSafeAt)
    }
  }

  /** The members of one circle, keyed by member id. */
  type Table = map<string, StoredMember>

  datatype ChatMessage = ChatMessage(id: string, userId: string, displayName: string, text: string, createdAt: int)

  /** Every row is stored under its own id and its status fields agree. */
  predicate RowOk(key: string, m: StoredMember) {
    m.id == key && Consistent(m.Fields())
  }

  predicate TableOk(t: Table) {
    forall k :: k in t ==> RowOk(k, t[k])
  }

  /** The row written by create, join and add-by-phone. */
  function NewRow(id: string, userId: Option<string>, displayName: string, phone: Option<string>, now: int): (m: StoredMember)
    ensures RowOk(id, m) && m.Fields() == UnreportedFields
  {
    StoredMember(id, userId, displayName, phone, false, Unknown, None, now)
  }

  /** The id given to a phone-only member: `phone_${Date.now()}_${random}`. */
  function PhoneMemberId(now: int, suffix: string): string {
    "phone_" + IntToString(now) + "_" + suffix
  }

  /** The digits of a row's phone, a missing phone counting as ''. */
  function PhoneDigits(m: StoredMember): string {
    DigitsOnly(m.phone.GetOr(""))
  }

  predicate HasPhone(t: Table, digits: string) {
    exists k :: k in t && PhoneDigits(t[k]) == digits
  }

  /** The table after a status write to the row keyed `userId`, if any. */
  function MarkRow(t: Table, userId: string, f: StatusFields): (r: Table)
    ensures r.Keys == t.Keys
    ensures forall k :: k in t && k != userId ==> r[k] == t[k]
    ensures userId in t ==> r[userId] == t[userId].With(f)
  {
    if userId in t then t[userId := t[userId].With(f)] else t
  }

  /** All tables after a status write to the row (`circleId`, `userId`). */
  function Mark(all: map<string, Table>, circleId: string, userId: string, f: StatusFields): map<string, Table> {
    if circleId in all then all[circleId := MarkRow(all[circleId], userId, f)] else all
  }

  /** All tables after the same status write in every circle of `circleIds`. */
  function MarkAll(all: map<string, Table>, circleIds: set<string>, userId: string, f: StatusFields): (r: map<string, Table>)
    ensures r.Keys == all.Keys
  {
    map c | c in all :: if c in circleIds then MarkRow(all[c], userId, f) else all[c]
  }

  /** Every row of a table set back to unreported. */
  function ResetTable(t: Table): (r: Table)
    ensures r.Keys == t.Keys
    ensures forall k :: k in t ==> r[k] == t[k].With(UnreportedFields)
  {
    map k | k in t :: t[k].With(UnreportedFields)
  }

  function SafeKeys(t: Table): set<string> {
    set k | k in t && (t[k].status == Safe || t[k].isSafe)
  }

  function SosKeys(t: Table): set<string> {
    set k | k in t && t[k].status == Sos
  }

  function UnknownKeys(t: Table): set<string> {
    set k | k in t && t[k].status == Unknown
  }

  /** getCircleSummary: all rows; rows marked safe by status or flag; rows in SOS. */
  function SummaryOf(t: Table): (r: Summary)
    ensures r.total == |t|
    ensures r.safe <= r.total && r.sos <= r.total
  {
    SubsetCard(SafeKeys(t), t.Keys);
    SubsetCard(SosKeys(t), t.Keys);
    Summary(|t|, |SafeKeys(t)|, |SosKeys(t)|)
  }

  /** Under the row invariant a row is counted at most once, and every row
      that is neither safe nor SOS is unknown. */
  lemma {:induction false} SummaryPartition(t: Table)
    requires TableOk(t)
    ensures SummaryOf(t).safe + SummaryOf(t).sos <= SummaryOf(t).total
    ensures SummaryOf(t).safe + |UnknownKeys(t)| + SummaryOf(t).sos == SummaryOf(t).total
  {
    var s, o, u := SafeKeys(t), SosKeys(t), UnknownKeys(t);
    forall k | k in s ensures k !in o && k !in u {
      assert RowOk(k, t[k]);
    }
    assert s !! o && s !! u && o !! u;
    forall k | k in t.Keys ensures k in s + o + u {
      assert t[k].status == Safe || t[k].status == Sos || t[k].status == Unknown;
    }
    assert s + o + u == t.Keys;
    assert |s + o| == |s| + |o|;
    assert (s + o) !! u;
  }

  /** Without the row invariant the local count can exceed the total: a row
      whose status is sos but whose isSafe flag is set is counted twice. */
  lemma SummaryDoubleCounts()
    ensures var t := map["a" := StoredMember("a", None, "", None, true, Sos, None, 0)];
            SummaryOf(t).safe + SummaryOf(t).sos > SummaryOf(t).total
  {
    var t := map["a" := StoredMember("a", None, "", None, true, Sos, None, 0)];
    assert SafeKeys(t) == {"a"};
    assert SosKeys(t) == {"a"};
  }

  /** After a reset nobody is safe or in SOS. */
  lemma {:induction false} ResetSummary(t: Table)
    ensures SummaryOf(ResetTable(t)) == Summary(|t|, 0, 0)
  {
    var r := ResetTable(t);
    assert SafeKeys(r) == {};
    assert SosKeys(r) == {};
    assert |r| == |r.Keys| == |t.Keys| == |t|;
  }

  /** Resetting twice is resetting once. */
  lemma ResetIdempotent(t: Table)
    ensures ResetTable(ResetTable(t)) == ResetTable(t)
  {
  }

  /** Status writes and resets keep the row invariant and the set of rows. */
  lemma {:induction false} WritersKeepTableOk(t: Table, userId: string, f: StatusFields)
    requires TableOk(t) && Consistent(f)
    ensures TableOk(MarkRow(t, userId, f))
    ensures TableOk(ResetTable(t))
  {
    var m := MarkRow(t, userId, f);
    forall k | k in m ensures RowOk(k, m[k]) {
      assert RowOk(k, t[k]);
    }
    var r := ResetTable(t);
    forall k | k in r ensures RowOk(k, r[k]) {
      assert RowOk(k, t[k]);
    }
  }

  /** A status write to a row already carrying it changes nothing. */
  lemma MarkRowIdempotent(t: Table, userId: string, f: StatusFields)
    ensures MarkRow(MarkRow(t, userId, f), userId, f) == MarkRow(t, userId, f)
  {
  }

  /** Marking no circle changes nothing. */
  lemma MarkAllNone(all: map<string, Table>, userId: string, f: StatusFields)
    ensures MarkAll(all, {}, userId, f) == all
  {
  }

  /** One more circle in the loop of setMe*InAllCircles. */
  lemma {:induction false} MarkAllStep(all: map<string, Table>, done: set<string>, c: string, userId: string, f: StatusFields)
    ensures Mark(MarkAll(all, done, userId, f), c, userId, f) == MarkAll(all, done + {c}, userId, f)
  {
    var lhs := Mark(MarkAll(all, done, userId, f), c, userId, f);
    var rhs := MarkAll(all, done + {c}, userId, f);
    assert lhs.Keys == rhs.Keys;
    forall k | k in lhs ensures lhs[k] == rhs[k] {
      if k == c {
        MarkRowIdempotent(all[c], userId, f);
      }
    }
  }

  class Store {
    var circles: map<string, StoredCircle>
    var members: map<string, Table>
    var users: map<string, seq<string>>
    var profiles: map<string, Profile>
    var chat: map<string, seq<ChatMessage>>

    /** Every member row is consistent and keyed by its id; no user lists a
        circle twice. */
    ghost predicate Valid()
      reads this
    {
      && (forall c :: c in members ==> TableOk(members[c]))
      && (forall u :: u in users ==> NoDuplicates(users[u]))
    }

    /** Empty storage: every `JSON.parse(... ?? '{}')` gives `{}`. */
    constructor()
      ensures Valid()
      ensures circles == map[] && members == map[] && users == map[] && profiles == map[] && chat == map[]
    {
      circles, members, users, profiles, chat := map[], map[], map[], map[], map[];
    }

    /** `all[circleId] ?? {}`. */
    function TableOf(circleId: string): Table
      reads this
    {
      if circleId in members then members[circleId] else map[]
    }

    /** `u[userId]?.myCircleIds ?? []`. */
    function CircleIds(userId: string): seq<string>
      reads this
    {
      if userId in users then users[userId] else []
    }

    function ChatOf(circleId: string): seq<ChatMessage>
      reads this
    {
      if circleId in chat then chat[circleId] else []
    }

    method AddCircleToUser(userId: string, circleId: string)
      modifies this
      ensures users == old(users)[userId := WithCircle(old(CircleIds(userId)), circleId)]
      ensures circles == old(circles) && members == old(members)
      ensures profiles == old(profiles) && chat == old(chat)
      ensures old(Valid()) ==> Valid()
    {
      var ids := CircleIds(userId);
      if circleId !in ids {
        users := users[userId := ids + [circleId]];
      }
    }

    /** The circles in the user's list, with their names ('מעגל' for a circle
        that no longer exists). */
    function GetMyCircles(userId: string): (r: seq<CircleInfo>)
      reads this
      ensures |r| == |CircleIds(userId)|
      ensures forall i :: 0 <= i < |r| ==> r[i].circleId == CircleIds(userId)[i]
      ensures forall i :: 0 <= i < |r| ==>
        r[i].name == (if r[i].circleId in circles then circles[r[i].circleId].name else "מעגל")
    {
      var ids := CircleIds(userId);
      seq(|ids|, i requires 0 <= i < |ids| reads this =>
        CircleInfo(ids[i], if ids[i] in circles then circles[ids[i]].name else "מעגל"))
    }

    method RemoveCircleFromUser(userId: string, circleId: string)
      modifies this
      ensures userId !in old(users) ==> users == old(users)
      ensures userId in old(users) ==> users == old(users)[userId := Without(old(users[userId]), circleId)]
      ensures circleId !in CircleIds(userId)
      ensures circles == old(circles) && members == old(members)
      ensures profiles == old(profiles) && chat == old(chat)
      ensures old(Valid()) ==> Valid()
    {
      if userId !in users {
        return;
      }
      users := users[userId := Without(users[userId], circleId)];
    }

    method CreateCircle(ownerId: string, ownerName: string, circleName: string, ownerPhone: Option<string>,
                        draws: seq<real>, now: int)
      returns (circleId: string, inviteCode: string)
      requires |draws| == CodeLength && forall i :: 0 <= i < |draws| ==> IsRandom(draws[i])
      modifies this
      ensures circleId == inviteCode == CodeFrom(draws) && IsInviteCode(circleId)
      ensures circles == old(circles)[circleId := StoredCircle(circleId,
        if circleName == "" then DefaultCircleName else circleName, ownerId, circleId, now)]
      ensures members == old(members)[circleId :=
        old(TableOf(circleId))[ownerId := NewRow(ownerId, Some(ownerId), ownerName, ownerPhone, now)]]
      ensures users == old(users)[ownerId := WithCircle(old(CircleIds(ownerId)), circleId)]
      ensures profiles == old(profiles) && chat == old(chat)
      ensures old(Valid()) ==> Valid()
    {
      inviteCode := MakeInviteCode(draws);
      circles := circles[inviteCode := StoredCircle(inviteCode,
        if circleName == "" then DefaultCircleName else circleName, ownerId, inviteCode, now)];
      members := members[inviteCode := TableOf(inviteCode)[ownerId := NewRow(ownerId, Some(ownerId), ownerName, ownerPhone, now)]];
      AddCircleToUser(ownerId, inviteCode);
      circleId := inviteCode;
    }

    method JoinCircle(inviteCode: string, userId: string, displayName: string, userPhone: Option<string>, now: int)
      returns (r: Option<string>)
      modifies this
      ensures Upper(inviteCode) !in old(circles) ==> r == None && unchanged(this)
      ensures Upper(inviteCode) in old(circles) ==>
        var code := Upper(inviteCode);
        && r == Some(code)
        && members == old(members)[code :=
             old(TableOf(code))[userId := NewRow(userId, Some(userId), displayName, userPhone, now)]]
        && users == old(users)[userId := WithCircle(old(CircleIds(userId)), code)]
        && circles == old(circles) && profiles == old(profiles) && chat == old(chat)
      ensures old(Valid()) ==> Valid()
    {
      var code := Upper(inviteCode);
      if code !in circles {
        return None;
      }
      members := members[code := TableOf(code)[userId := NewRow(userId, Some(userId), displayName, userPhone, now)]];
      AddCircleToUser(userId, code);
      r := Some(code);
    }

    /** The owner of an existing circle, null for an unknown one. */
    function GetCircleOwner(circleId: string): (r: Option<string>)
      reads this
      ensures r.Some? <==> circleId in circles
      ensures r.Some? ==> r.value == circles[circleId].ownerId
    {
      if circleId in circles then Some(circles[circleId].ownerId) else None
    }

    /** `getCircle`: lookup by upper-cased invite code. */
    function GetCircle(code: string): (r: Option<StoredCircle>)
      reads this
      ensures r.Some? <==> Upper(code) in circles
      ensures r.Some? ==> r.value == circles[Upper(code)]
    {
      if Upper(code) in circles then Some(circles[Upper(code)]) else None
    }

    method RemoveMember(circleId: string, memberId: string, requesterId: string)
      returns (r: Outcome<StoreError>)
      modifies this
      ensures old(GetCircleOwner(circleId)) != Some(requesterId) ==> r == Fail(NotOwner) && unchanged(this)
      ensures old(GetCircleOwner(circleId)) == Some(requesterId) && memberId !in old(TableOf(circleId)) ==>
        r == Pass && unchanged(this)
      ensures old(GetCircleOwner(circleId)) == Some(requesterId) && memberId in old(TableOf(circleId)) ==>
        if old(TableOf(circleId))[memberId].userId == Some(requesterId) then
          r == Fail(CannotRemoveSelf) && unchanged(this)
        else
          && r == Pass
          && members == old(members)[circleId := old(members[circleId]) - {memberId}]
          && circles == old(circles) && users == old(users) && profiles == old(profiles) && chat == old(chat)
      ensures old(Valid()) ==> Valid()
    {
      var ownerId := GetCircleOwner(circleId);
      if ownerId != Some(requesterId) {
        return Fail(NotOwner);
      }
      if circleId !in members || memberId !in members[circleId] {
        return Pass;
      }
      if members[circleId][memberId].userId == ownerId {
        return Fail(CannotRemoveSelf);
      }
      members := members[circleId := members[circleId] - {memberId}];
      r := Pass;
    }

    method AddMemberByPhone(circleId: string, displayName: string, phone: string, suffix: string, now: int)
      returns (r: Outcome<StoreError>)
      modifies this
      ensures |old(TableOf(circleId))| >= MaxCircleMembers ==> r == Fail(CircleFull) && unchanged(this)
      ensures |old(TableOf(circleId))| < MaxCircleMembers && HasPhone(old(TableOf(circleId)), DigitsOnly(phone)) ==>
        r == Fail(DuplicatePhone) && unchanged(this)
      ensures |old(TableOf(circleId))| < MaxCircleMembers && !HasPhone(old(TableOf(circleId)), DigitsOnly(phone)) ==>
        var id := PhoneMemberId(now, suffix);
        && r == Pass
        && members == old(members)[circleId :=
             old(TableOf(circleId))[id := NewRow(id, None, displayName, Some(DigitsOnly(phone)), now)]]
        && circles == old(circles) && users == old(users) && profiles == old(profiles) && chat == old(chat)
      ensures r == Pass ==> |TableOf(circleId)| <= MaxCircleMembers
      ensures old(Valid()) ==> Valid()
    {
      var table := TableOf(circleId);
      if |table| >= MaxCircleMembers {
        return Fail(CircleFull);
      }
      var normalized := DigitsOnly(phone);
      if HasPhone(table, normalized) {
        return Fail(DuplicatePhone);
      }
      var id := PhoneMemberId(now, suffix);
      InsertCount(table, id, NewRow(id, None, displayName, Some(normalized), now));
      members := members[circleId := table[id := NewRow(id, None, displayName, Some(normalized), now)]];
      r := Pass;
    }

    method SetMeSafe(circleId: string, userId: string, now: int)
      modifies this
      ensures members == Mark(old(members), circleId, userId, SafeFields(now))
      ensures circles == old(circles) && users == old(users) && profiles == old(profiles) && chat == old(chat)
      ensures old(Valid()) ==> Valid()
    {
      if circleId in members && userId in members[circleId] {
        members := members[circleId := members[circleId][userId := members[circleId][userId].With(SafeFields(now))]];
      }
      WritersKeepTableOkAll(old(members), circleId, userId, SafeFields(now));
    }

    method SetMeUnsafe(circleId: string, userId: string)
      modifies this
      ensures members == Mark(old(members), circleId, userId, UnreportedFields)
      ensures circles == old(circles) && users == old(users) && profiles == old(profiles) && chat == old(chat)
      ensures old(Valid()) ==> Valid()
    {
      if circleId in members && userId in members[circleId] {
        members := members[circleId := members[circleId][userId := members[circleId][userId].With(UnreportedFields)]];
      }
      WritersKeepTableOkAll(old(members), circleId, userId, UnreportedFields);
    }

    method SetMeSOS(circleId: string, userId: string)
      modifies this
      ensures members == Mark(old(members), circleId, userId, SosFields)
      ensures circles == old(circles) && users == old(users) && profiles == old(profiles) && chat == old(chat)
      ensures old(Valid()) ==> Valid()
    {
      if circleId in members && userId in members[circleId] {
        members := members[circleId := members[circleId][userId := members[circleId][userId].With(SosFields)]];
      }
      WritersKeepTableOkAll(old(members), circleId, userId, SosFields);
    }

    method SetMeSafeInAllCircles(userId: string, now: int)
      modifies this
      ensures members == MarkAll(old(members), IdSet(old(CircleIds(userId))), userId, SafeFields(now))
      ensures circles == old(circles) && users == old(users) && profiles == old(profiles) && chat == old(chat)
      ensures old(Valid()) ==> Valid()
    {
      var ids := CircleIds(userId);
      ghost var before := members;
      MarkAllNone(before, userId, SafeFields(now));
      for i := 0 to |ids|
        invariant members == MarkAll(before, IdSet(ids[..i]), userId, SafeFields(now))
        invariant circles == old(circles) && users == old(users) && profiles == old(profiles) && chat == old(chat)
        invariant old(Valid()) ==> Valid()
      {
        SetMeSafe(ids[i], userId, now);
        MarkAllStep(before, IdSet(ids[..i]), ids[i], userId, SafeFields(now));
        IdSetSnoc(ids, i);
      }
      assert ids[..|ids|] == ids;
    }

    method SetMeUnsafeInAllCircles(userId: string)
      modifies this
      ensures members == MarkAll(old(members), IdSet(old(CircleIds(userId))), userId, UnreportedFields)
      ensures circles == old(circles) && users == old(users) && profiles == old(profiles) && chat == old(chat)
      ensures old(Valid()) ==> Valid()
    {
      var ids := CircleIds(userId);
      ghost var before := members;
      MarkAllNone(before, userId, UnreportedFields);
      for i := 0 to |ids|
        invariant members == MarkAll(before, IdSet(ids[..i]), userId, UnreportedFields)
        invariant circles == old(circles) && users == old(users) && profiles == old(profiles) && chat == old(chat)
        invariant old(Valid()) ==> Valid()
      {
        SetMeUnsafe(ids[i], userId);
        MarkAllStep(before, IdSet(ids[..i]), ids[i], userId, UnreportedFields);
        IdSetSnoc(ids, i);
      }
      assert ids[..|ids|] == ids;
    }

    method ResetAllMembers(circleId: string)
      modifies this
      ensures circleId !in old(members) ==> members == old(members)
      ensures circleId in old(members) ==> members == old(members)[circleId := ResetTable(old(members[circleId]))]
      ensures circles == old(circles) && users == old(users) && profiles == old(profiles) && chat == old(chat)
      ensures old(Valid()) ==> Valid()
    {
      if circleId !in members {
        return;
      }
      var circle := members[circleId];
      ghost var original := circle;
      var pending := circle.Keys;
      while pending != {}
        invariant pending <= original.Keys && circle.Keys == original.Keys
        invariant forall k :: k in circle ==>
          circle[k] == if k in pending then original[k] else original[k].With(UnreportedFields)
        decreases pending
      {
        var id :| id in pending;
        circle := circle[id := circle[id].With(UnreportedFields)];
        pending := pending - {id};
      }
      assert circle == ResetTable(original);
      members := members[circleId := circle];
      if old(Valid()) {
        WritersKeepTableOk(original, "", UnreportedFields);
      }
    }

    function GetCircleSummary(circleId: string): (r: Summary)
      reads this
      ensures r.total == |TableOf(circleId)|
      ensures Valid() ==> r.safe + r.sos <= r.total
      ensures r.safe <= r.total && r.sos <= r.total
    {
      var t := TableOf(circleId);
      if TableOk(t) then
        SummaryPartition(t);
        SummaryOf(t)
      else
        SummaryOf(t)
    }

    /** `getMembers`: every row, with its `id` taken from its key. */
    function GetMembers(circleId: string): (r: Table)
      reads this
      ensures r.Keys == TableOf(circleId).Keys
      ensures forall k :: k in r ==> r[k] == TableOf(circleId)[k].(id := k)
    {
      var t := TableOf(circleId);
      map k | k in t :: t[k].(id := k)
    }

    /** A stored profile with every field present. */
    function GetUserProfile(userId: string): (r: Option<Profile>)
      reads this
      ensures r.Some? <==> userId in profiles
      ensures r.Some? ==> r.value == profiles[userId]
    {
      if userId in profiles then Some(profiles[userId]) else None
    }

    method UpdateUserProfile(userId: string, patch: ProfilePatch)
      modifies this
      ensures profiles == old(profiles)[userId := MergeProfile(old(GetUserProfile(userId)), patch)]
      ensures circles == old(circles) && members == old(members) && users == old(users) && chat == old(chat)
      ensures old(Valid()) ==> Valid()
    {
      profiles := profiles[userId := MergeProfile(GetUserProfile(userId), patch)];
    }

    method AddChatMessage(circleId: string, userId: string, displayName: string, text: string, suffix: string, now: int)
      modifies this
      ensures chat == old(chat)[circleId := old(ChatOf(circleId)) + [ChatMessage(
        "msg_" + IntToString(now) + "_" + suffix, userId, Prefix(displayName, 100), Prefix(text, 2000), now)]]
      ensures circles == old(circles) && members == old(members) && users == old(users) && profiles == old(profiles)
      ensures old(Valid()) ==> Valid()
    {
      chat := chat[circleId := ChatOf(circleId) + [ChatMessage(
        "msg_" + IntToString(now) + "_" + suffix, userId, Prefix(displayName, 100), Prefix(text, 2000), now)]];
    }
  }

  /** Keeping the row invariant over all circles after one status write. */
  lemma {:induction false} WritersKeepTableOkAll(all: map<string, Table>, circleId: string, userId: string, f: StatusFields)
    requires Consistent(f)
    ensures (forall c :: c in all ==> TableOk(all[c])) ==>
      forall c :: c in Mark(all, circleId, userId, f) ==> TableOk(Mark(all, circleId, userId, f)[c])
  {
    if forall c :: c in all ==> TableOk(all[c]) {
      if circleId in all {
        WritersKeepTableOk(all[circleId], userId, f);
      }
    }
  }

  /** `profile.f ?? existing?.f ?? ''` for each field. */
  function MergeProfile(existing: Option<Profile>, patch: ProfilePatch): (p: Profile)
    ensures patch.displayName.Some? ==> p.displayName == patch.displayName.value
    ensures patch.phone.Some? ==> p.phone == patch.phone.value
    ensures patch.city.Some? ==> p.city == patch.city.value
    ensures patch.location.Some? ==> p.location == patch.location.value
    ensures patch.address.Some? ==> p.address == patch.address.value
    ensures patch.displayName.None? ==> p.displayName == (if existing.Some? then existing.value.displayName else "")
    ensures patch.phone.None? ==> p.phone == (if existing.Some? then existing.value.phone else "")
    ensures patch.city.None? ==> p.city == (if existing.Some? then existing.value.city else "")
    ensures patch.location.None? ==> p.location == (if existing.Some? then existing.value.location else "")
    ensures patch.address.None? ==> p.address == (if existing.Some? then existing.value.address else "")
    ensures existing.Some? && patch == ProfilePatch(None, None, None, None, None) ==> p == existing.value
    ensures existing.None? && patch == ProfilePatch(None, None, None, None, None) ==> p == Profile("", "", "", "", "")
  {
    var old_ := existing.GetOr(Profile("", "", "", "", ""));
    Profile(
      patch.displayName.GetOr(old_.displayName),
      patch.phone.GetOr(old_.phone),
      patch.city.GetOr(old_.city),
      patch.location.GetOr(old_.location),
      patch.address.GetOr(old_.address))
  }
}
