/** The Firestore-backed circle store of circleService.ts. Firestore is an
    in-memory map of documents held by one `RemoteStore` object: circle
    documents, the `members` sub-collection of each circle and user
    documents. Every document write (setDoc, updateDoc, deleteDoc) is
    recorded in `writes`, so contracts can say when the source skips a
    write. An updateDoc on a missing document fails, as Firestore does.
    serverTimestamp() and Date.now() are the parameter `now`. */
module RemoteStore {
  import opened Wrappers
  import opened Text
  import opened Members
  import opened InviteCode

  datatype CircleDoc = CircleDoc(name: string, ownerId: string, inviteCode: string, createdAt: int)

  /** A member document. `status` is absent on the documents written by
      create, join and add-by-phone until a status writer sets it. */
  datatype MemberDoc = MemberDoc(
    userId: Option<string>,
    displayName: string,
    phone: Option<string>,
    isSafe: bool,
    status: Option<MemberStatus>,
    lastSafeAt: Option<int>,
    addedAt: int)
  {
    /** The document after `updateDoc(ref, {isSafe, status, lastSafeAt})`. */
    function With(f: StatusFields): (m: MemberDoc)
      ensures m.isSafe == f.isSafe && m.status == Some(f.status) && m.lastSafeAt == f.lastSafeAt
      ensures m.userId == userId && m.displayName == displayName && m.phone == phone && m.addedAt == addedAt
    {
      this.(isSafe := f.isSafe, status := Some(f.status), lastSafeAt := f.lastSafeAt)
    }
  }

  /** A user document; every field may be missing. */
  datatype UserDoc = UserDoc(
    email: Option<string>,
    displayName: Option<string>,
    phone: Option<string>,
    city: Option<string>,
    location: Option<string>,
    address: Option<string>,
    myCircleIds: Option<seq<string>>)

  datatype DocPath = CirclePath(circleId: string) | MemberPath(circleId: string, memberId: string) | UserPath(userId: string)

  /** The `members` sub-collection of one circle, keyed by document id. */
  type Docs = map<string, MemberDoc>

  /** The row invariant of the remote store: the flag, the stored status
      and the timestamp agree, an absent status counting as not safe. */
  predicate DocOk(m: MemberDoc) {
    && (m.isSafe <==> m.status == Some(Safe))
    && (m.isSafe <==> m.lastSafeAt.Some?)
  }

  predicate DocsOk(t: Docs) {
    forall k :: k in t ==> DocOk(t[k])
  }

  /** The document written by create, join and add-by-phone: not safe,
      no timestamp and no status field. */
  function NewDoc(userId: Option<string>, displayName: string, phone: Option<string>, now: int): (m: MemberDoc)
    ensures DocOk(m) && m.status.None? && !m.isSafe
    ensures m.userId == userId && m.phone == phone
  {
    MemberDoc(userId, displayName, phone, false, None, None, now)
  }

  /** `(d.data().phone ?? '').replace(/\D/g, '')`. */
  function PhoneDigits(m: MemberDoc): string {
    DigitsOnly(m.phone.GetOr(""))
  }

  predicate HasPhone(t: Docs, digits: string) {
    exists k :: k in t && PhoneDigits(t[k]) == digits
  }

  /** The collections after one status update of document (`circleId`, `userId`), if it exists. */
  function Mark(all: map<string, Docs>, circleId: string, userId: string, f: StatusFields): (r: map<string, Docs>)
    ensures r.Keys == all.Keys
    ensures forall c :: c in r ==> r[c].Keys == all[c].Keys
  {
    if circleId in all && userId in all[circleId] then
      all[circleId := all[circleId][userId := all[circleId][userId].With(f)]]
    else all
  }

  /** The collections after the same status update of the user's document in every circle of `circleIds`. */
  function MarkAll(all: map<string, Docs>, circleIds: set<string>, userId: string, f: StatusFields): (r: map<string, Docs>)
    ensures r.Keys == all.Keys
    ensures forall c :: c in r ==> r[c].Keys == all[c].Keys
  {
    map c | c in all ::
      if c in circleIds && userId in all[c] then all[c][userId := all[c][userId].With(f)] else all[c]
  }

  lemma MarkAllNone(all: map<string, Docs>, userId: string, f: StatusFields)
    ensures MarkAll(all, {}, userId, f) == all
  {
  }

  /** One more circle in the fan-out of setMe*InAllCircles. */
  lemma {:induction false} MarkAllStep(all: map<string, Docs>, done: set<string>, c: string, userId: string, f: StatusFields)
    ensures Mark(MarkAll(all, done, userId, f), c, userId, f) == MarkAll(all, done + {c}, userId, f)
  {
    var m := MarkAll(all, done, userId, f);
    var lhs := Mark(m, c, userId, f);
    var rhs := MarkAll(all, done + {c}, userId, f);
    assert lhs.Keys == rhs.Keys;
    forall k | k in lhs ensures lhs[k] == rhs[k] {
      if k == c && userId in all[c] {
        WithTwice(all[c][userId], f);
        assert lhs[k] == all[c][userId := all[c][userId].With(f)];
      } else if k == c {
        assert userId !in m[c];
        assert lhs == m;
      } else {
        assert lhs[k] == m[k];
        assert k in done + {c} <==> k in done;
      }
    }
  }

  /** The same status update twice is the update once. */
  lemma WithTwice(d: MemberDoc, f: StatusFields)
    ensures d.With(f).With(f) == d.With(f)
  {
  }

  /** Does the user have a document in the circle? */
  predicate HasDoc(all: map<string, Docs>, circleId: string, userId: string) {
    circleId in all && userId in all[circleId]
  }

  /** The updates that reach an existing document, one per listed circle. */
  function MarkWrites(all: map<string, Docs>, ids: seq<string>, userId: string): (w: multiset<DocPath>)
    ensures |w| <= |ids|
    ensures forall p :: p in w ==> p.MemberPath? && p.memberId == userId && HasDoc(all, p.circleId, userId)
  {
    if ids == [] then multiset{}
    else
      var c := ids[|ids| - 1];
      MarkWrites(all, ids[..|ids| - 1], userId)
        + (if HasDoc(all, c, userId) then multiset{MemberPath(c, userId)} else multiset{})
  }

  lemma MarkWritesSnoc(all: map<string, Docs>, ids: seq<string>, i: nat, userId: string)
    requires i < |ids|
    ensures MarkWrites(all, ids[..i + 1], userId) == MarkWrites(all, ids[..i], userId)
      + (if HasDoc(all, ids[i], userId) then multiset{MemberPath(ids[i], userId)} else multiset{})
  {
    assert ids[..i + 1][..i] == ids[..i];
  }

  /** Every listed circle has a document for the user: the fan-out succeeds. */
  predicate AllHaveDoc(all: map<string, Docs>, ids: seq<string>, userId: string) {
    forall j :: 0 <= j < |ids| ==> HasDoc(all, ids[j], userId)
  }

  lemma AllHaveDocSnoc(all: map<string, Docs>, ids: seq<string>, i: nat, userId: string)
    requires i < |ids|
    ensures AllHaveDoc(all, ids[..i + 1], userId) <==> AllHaveDoc(all, ids[..i], userId) && HasDoc(all, ids[i], userId)
  {
    assert ids[..i + 1][i] == ids[i];
  }

  lemma MultisetAssoc<T>(a: multiset<T>, b: multiset<T>, c: multiset<T>)
    ensures a + b + c == a + (b + c)
  {
  }

  /** Every member document of a collection set back to unreported. */
  function ResetDocs(t: Docs): (r: Docs)
    ensures r.Keys == t.Keys
    ensures forall k :: k in t ==> r[k] == t[k].With(UnreportedFields)
    ensures DocsOk(r)
  {
    map k | k in t :: t[k].With(UnreportedFields)
  }

  /** One write per member document of `ks`. */
  function MemberPaths(circleId: string, ks: set<string>): multiset<DocPath> {
    multiset(set k | k in ks :: MemberPath(circleId, k))
  }

  lemma {:induction false} MemberPathsStep(circleId: string, ks: set<string>, k: string)
    requires k !in ks
    ensures MemberPaths(circleId, ks + {k}) == MemberPaths(circleId, ks) + multiset{MemberPath(circleId, k)}
  {
    var a := set j | j in ks :: MemberPath(circleId, j);
    var p := MemberPath(circleId, k);
    assert (set j | j in ks + {k} :: MemberPath(circleId, j)) == a + {p};
    assert p !in a;
    forall q ensures multiset(a + {p})[q] == (multiset(a) + multiset{p})[q] {
    }
    assert multiset(a + {p}) == multiset(a) + multiset{p};
  }

  /** The documents of `done` are reset and the others untouched. */
  predicate ResetUpTo(original: Docs, docs: Docs, done: set<string>) {
    && docs.Keys == original.Keys
    && forall k :: k in original ==>
         docs[k] == if k in done then original[k].With(UnreportedFields) else original[k]
  }

  lemma ResetUpToStep(original: Docs, docs: Docs, done: set<string>, k: string)
    requires ResetUpTo(original, docs, done) && k in original
    ensures ResetUpTo(original, docs[k := docs[k].With(UnreportedFields)], done + {k})
  {
  }

  lemma ResetUpToAll(original: Docs, docs: Docs)
    requires ResetUpTo(original, docs, original.Keys)
    ensures docs == ResetDocs(original)
  {
  }

  lemma MemberPathsEmpty(circleId: string)
    ensures MemberPaths(circleId, {}) == multiset{}
  {
    assert (set k | k in {} :: MemberPath(circleId, k)) == {};
  }

  /** How the remote summary classifies a document: sos first, then safe by flag or status. */
  predicate CountsSos(m: MemberDoc) {
    m.status == Some(Sos)
  }

  predicate CountsSafe(m: MemberDoc) {
    !CountsSos(m) && (m.isSafe || m.status == Some(Safe))
  }

  function SosIn(t: Docs, ks: set<string>): set<string> {
    set k | k in ks && k in t && CountsSos(t[k])
  }

  function SafeIn(t: Docs, ks: set<string>): set<string> {
    set k | k in ks && k in t && CountsSafe(t[k])
  }

  /** The summary the remote store reports for a collection. */
  function SummaryOf(t: Docs): Summary {
    Summary(|t|, |SafeIn(t, t.Keys)|, |SosIn(t, t.Keys)|)
  }

  /** The two counts are exclusive, so they never exceed the total whatever
      the documents hold. */
  lemma {:induction false} SummaryBound(t: Docs)
    ensures SummaryOf(t).safe + SummaryOf(t).sos <= SummaryOf(t).total
  {
    var s, o := SafeIn(t, t.Keys), SosIn(t, t.Keys);
    assert s !! o;
    SubsetCard(s + o, t.Keys);
  }

  /** Counting one more document. */
  lemma {:induction false} CountStep(t: Docs, done: set<string>, k: string)
    requires k in t && k !in done
    ensures SosIn(t, done + {k}) == if CountsSos(t[k]) then SosIn(t, done) + {k} else SosIn(t, done)
    ensures SafeIn(t, done + {k}) == if CountsSafe(t[k]) then SafeIn(t, done) + {k} else SafeIn(t, done)
    ensures k !in SosIn(t, done) && k !in SafeIn(t, done)
  {
  }

  /** The fields `updateUserProfile` and `ensureUserDoc` overwrite: the given ones. */
  function Patched(d: UserDoc, p: ProfilePatch): (r: UserDoc)
    ensures p.displayName.Some? ==> r.displayName == p.displayName
    ensures p.phone.Some? ==> r.phone == p.phone
    ensures p.city.Some? ==> r.city == p.city
    ensures p.location.Some? ==> r.location == p.location
    ensures p.address.Some? ==> r.address == p.address
    ensures p.displayName.None? ==> r.displayName == d.displayName
    ensures p.phone.None? ==> r.phone == d.phone
    ensures p.city.None? ==> r.city == d.city
    ensures p.location.None? ==> r.location == d.location
    ensures p.address.None? ==> r.address == d.address
    ensures r.email == d.email && r.myCircleIds == d.myCircleIds
  {
    d.(displayName := if p.displayName.Some? then p.displayName else d.displayName,
       phone := if p.phone.Some? then p.phone else d.phone,
       city := if p.city.Some? then p.city else d.city,
       location := if p.location.Some? then p.location else d.location,
       address := if p.address.Some? then p.address else d.address)
  }

  /** `Object.keys(updates).length > 0`. */
  predicate GivesAny(p: ProfilePatch) {
    p.displayName.Some? || p.phone.Some? || p.city.Some? || p.location.Some? || p.address.Some?
  }

  lemma PatchNothing(d: UserDoc, p: ProfilePatch)
    requires !GivesAny(p)
    ensures Patched(d, p) == d
  {
  }

  /** The user's circle list, a missing document or field counting as []. */
  function IdsIn(users: map<string, UserDoc>, userId: string): seq<string> {
    if userId in users then users[userId].myCircleIds.GetOr([]) else []
  }

  /** User documents after `addCircleToUser`. */
  function Indexed(users: map<string, UserDoc>, userId: string, circleId: string): (r: map<string, UserDoc>)
    ensures r.Keys == users.Keys + {userId}
    ensures forall u :: u in users && u != userId ==> r[u] == users[u]
    ensures IdsIn(r, userId) == WithCircle(IdsIn(users, userId), circleId)
    ensures userId !in users ==> r[userId] == UserDoc(None, None, None, None, None, None, Some([circleId]))
  {
    if userId !in users then users[userId := UserDoc(None, None, None, None, None, None, Some([circleId]))]
    else if circleId in IdsIn(users, userId) then users
    else users[userId := users[userId].(myCircleIds := Some(IdsIn(users, userId) + [circleId]))]
  }

  /** The write `addCircleToUser` makes: none when the id is listed already. */
  function IndexWrite(users: map<string, UserDoc>, userId: string, circleId: string): (w: multiset<DocPath>)
    ensures w == multiset{} <==> userId in users && circleId in IdsIn(users, userId)
  {
    if userId in users && circleId in IdsIn(users, userId) then multiset{} else multiset{UserPath(userId)}
  }

  predicate MembersOk(all: map<string, Docs>) {
    forall c :: c in all ==> DocsOk(all[c])
  }

  predicate UsersOk(users: map<string, UserDoc>) {
    forall u :: u in users ==> NoDuplicates(IdsIn(users, u))
  }

  /** Adding a document that keeps the row invariant to a circle's collection
      (an empty one when the circle has none) keeps every collection valid. */
  lemma AddDocOk(all: map<string, Docs>, c: string, k: string, d: MemberDoc)
    requires MembersOk(all) && DocOk(d)
    ensures MembersOk(all[c := (if c in all then all[c] else map[])[k := d]])
  {
  }

  /** Indexing a circle keeps every list free of duplicates. */
  lemma {:induction false} IndexedOk(users: map<string, UserDoc>, userId: string, circleId: string)
    requires UsersOk(users)
    ensures UsersOk(Indexed(users, userId, circleId))
  {
    var r := Indexed(users, userId, circleId);
    forall u | u in r ensures NoDuplicates(IdsIn(r, u)) {
      if u != userId {
        assert IdsIn(r, u) == IdsIn(users, u);
      }
    }
  }

  /** The loop of resetAllMembers: one update per document of the
      snapshot, collected as the documents they produce and the writes they
      make. */
  method ResetBatch(circleId: string, snap: Docs) returns (docs: Docs, batch: multiset<DocPath>)
    ensures docs == ResetDocs(snap)
    ensures batch == MemberPaths(circleId, snap.Keys)
  {
    docs := snap;
    batch := multiset{};
    ghost var done: set<string> := {};
    var pending := snap.Keys;
    MemberPathsEmpty(circleId);
    while pending != {}
      invariant pending <= snap.Keys && done == snap.Keys - pending
      invariant ResetUpTo(snap, docs, done)
      invariant batch == MemberPaths(circleId, done)
      decreases pending
    {
      var id :| id in pending;
      ResetUpToStep(snap, docs, done, id);
      docs := docs[id := docs[id].With(UnreportedFields)];
      MemberPathsStep(circleId, done, id);
      batch := batch + multiset{MemberPath(circleId, id)};
      pending := pending - {id};
      done := done + {id};
    }
    ResetUpToAll(snap, docs);
  }

  class RemoteStore {
    var circles: map<string, CircleDoc>
    var members: map<string, Docs>
    var users: map<string, UserDoc>
    var writes: multiset<DocPath>

    /** Every member document keeps the row invariant and no user lists a circle twice. */
    ghost predicate Valid()
      reads this
    {
      MembersOk(members) && UsersOk(users)
    }

    constructor()
      ensures Valid()
      ensures circles == map[] && members == map[] && users == map[] && writes == multiset{}
    {
      circles, members, users, writes := map[], map[], map[], multiset{};
    }

    /** The `members` collection of a circle (empty when it has none). */
    function DocsOf(circleId: string): Docs
      reads this
    {
      if circleId in members then members[circleId] else map[]
    }

    method AddCircleToUser(userId: string, circleId: string)
      modifies this
      ensures users == Indexed(old(users), userId, circleId)
      ensures writes == old(writes) + IndexWrite(old(users), userId, circleId)
      ensures circles == old(circles) && members == old(members)
      ensures old(Valid()) ==> Valid()
    {
      ghost var before := users;
      if Valid() {
        IndexedOk(before, userId, circleId);
      }
      if userId !in users {
        users := users[userId := UserDoc(None, None, None, None, None, None, Some([circleId]))];
        writes := writes + multiset{UserPath(userId)};
        assert users == Indexed(before, userId, circleId);
        return;
      }
      var ids := users[userId].myCircleIds.GetOr([]);
      if circleId in ids {
        assert users == Indexed(before, userId, circleId);
        return;
      }
      users := users[userId := users[userId].(myCircleIds := Some(ids + [circleId]))];
      writes := writes + multiset{UserPath(userId)};
      assert users == Indexed(before, userId, circleId);
    }

    method RemoveCircleFromUser(userId: string, circleId: string)
      modifies this
      ensures !(userId in old(users) && circleId in IdsIn(old(users), userId)) ==> unchanged(this)
      ensures userId in old(users) && circleId in IdsIn(old(users), userId) ==>
        && users == old(users)[userId := old(users[userId]).(myCircleIds := Some(Without(IdsIn(old(users), userId), circleId)))]
        && writes == old(writes) + multiset{UserPath(userId)}
        && circles == old(circles) && members == old(members)
      ensures circleId !in IdsIn(users, userId)
      ensures old(Valid()) ==> Valid()
    {
      if userId !in users {
        return;
      }
      var ids := users[userId].myCircleIds.GetOr([]);
      var next := Without(ids, circleId);
      WithoutKeepsLength(ids, circleId);
      if |next| == |ids| {
        return;
      }
      users := users[userId := users[userId].(myCircleIds := Some(next))];
      writes := writes + multiset{UserPath(userId)};
    }

    method CreateCircle(ownerId: string, ownerName: string, circleName: string, ownerPhone: Option<string>,
                        draws: seq<real>, now: int)
      returns (circleId: string, inviteCode: string)
      requires |draws| == CodeLength && forall i :: 0 <= i < |draws| ==> IsRandom(draws[i])
      modifies this
      ensures circleId == inviteCode == CodeFrom(draws) && IsInviteCode(circleId)
      ensures circles == old(circles)[circleId := CircleDoc(
        if circleName == "" then DefaultCircleName else circleName, ownerId, circleId, now)]
      ensures members == old(members)[circleId :=
        old(DocsOf(circleId))[ownerId := NewDoc(Some(ownerId), ownerName, ownerPhone, now)]]
      ensures users == Indexed(old(users), ownerId, circleId)
      ensures writes == old(writes) + multiset{CirclePath(circleId), MemberPath(circleId, ownerId)}
                        + IndexWrite(old(users), ownerId, circleId)
      ensures old(Valid()) ==> Valid()
    {
      inviteCode := MakeInviteCode(draws);
      var doc := NewDoc(Some(ownerId), ownerName, ownerPhone, now);
      var docs := DocsOf(inviteCode)[ownerId := doc];
      if Valid() {
        AddDocOk(members, inviteCode, ownerId, doc);
      }
      circles := circles[inviteCode := CircleDoc(
        if circleName == "" then DefaultCircleName else circleName, ownerId, inviteCode, now)];
      members := members[inviteCode := docs];
      writes := writes + multiset{CirclePath(inviteCode), MemberPath(inviteCode, ownerId)};
      ghost var w := writes;
      AddCircleToUser(ownerId, inviteCode);
      assert writes == w + IndexWrite(old(users), ownerId, inviteCode);
      circleId := inviteCode;
    }

    method JoinCircle(inviteCode: string, userId: string, displayName: string, userPhone: Option<string>, now: int)
      returns (r: Option<string>)
      modifies this
      ensures Upper(inviteCode) !in old(circles) ==> r == None && unchanged(this)
      ensures Upper(inviteCode) in old(circles) ==>
        var code := Upper(inviteCode);
        && r == Some(code)
        && members == old(members)[code := old(DocsOf(code))[userId := NewDoc(Some(userId), displayName, userPhone, now)]]
        && users == Indexed(old(users), userId, code)
        && writes == old(writes) + multiset{MemberPath(code, userId)} + IndexWrite(old(users), userId, code)
        && circles == old(circles)
      ensures old(Valid()) ==> Valid()
    {
      var code := Upper(inviteCode);
      if code !in circles {
        return None;
      }
      var doc := NewDoc(Some(userId), displayName, userPhone, now);
      if Valid() {
        AddDocOk(members, code, userId, doc);
      }
      members := members[code := DocsOf(code)[userId := doc]];
      writes := writes + multiset{MemberPath(code, userId)};
      AddCircleToUser(userId, code);
      r := Some(code);
    }

    /** Does any member document of the collection carry this digits-only phone? */
    method FindDuplicatePhone(t: Docs, normalized: string) returns (found: bool)
      ensures found <==> HasPhone(t, normalized)
    {
      var pending := t.Keys;
      while pending != {}
        invariant pending <= t.Keys
        invariant forall k :: k in t && k !in pending ==> PhoneDigits(t[k]) != normalized
        decreases pending
      {
        var k :| k in pending;
        var p := DigitsOnly(t[k].phone.GetOr(""));
        if p == normalized {
          return true;
        }
        pending := pending - {k};
      }
      found := false;
    }

    method AddMemberByPhone(circleId: string, displayName: string, phone: string, suffix: string, now: int)
      returns (r: Outcome<StoreError>)
      modifies this
      ensures |old(DocsOf(circleId))| >= MaxCircleMembers ==> r == Fail(CircleFull) && unchanged(this)
      ensures |old(DocsOf(circleId))| < MaxCircleMembers && HasPhone(old(DocsOf(circleId)), DigitsOnly(phone)) ==>
        r == Fail(DuplicatePhone) && unchanged(this)
      ensures |old(DocsOf(circleId))| < MaxCircleMembers && !HasPhone(old(DocsOf(circleId)), DigitsOnly(phone)) ==>
        var id := "phone_" + IntToString(now) + "_" + suffix;
        && r == Pass
        && members == old(members)[circleId :=
             old(DocsOf(circleId))[id := NewDoc(None, displayName, Some(DigitsOnly(phone)), now)]]
        && writes == old(writes) + multiset{MemberPath(circleId, id)}
        && circles == old(circles) && users == old(users)
      ensures r == Pass ==> |DocsOf(circleId)| <= MaxCircleMembers
      ensures old(Valid()) ==> Valid()
    {
      var normalized := DigitsOnly(phone);
      var snap := DocsOf(circleId);
      if |snap| >= MaxCircleMembers {
        return Fail(CircleFull);
      }
      var dup := FindDuplicatePhone(snap, normalized);
      if dup {
        return Fail(DuplicatePhone);
      }
      var id := "phone_" + IntToString(now) + "_" + suffix;
      InsertCount(snap, id, NewDoc(None, displayName, Some(normalized), now));
      members := members[circleId := snap[id := NewDoc(None, displayName, Some(normalized), now)]];
      writes := writes + multiset{MemberPath(circleId, id)};
      r := Pass;
    }

    /** `updateDoc` of the three status fields; fails on a missing document. */
    method WriteStatus(circleId: string, userId: string, f: StatusFields) returns (r: Outcome<StoreError>)
      requires Consistent(f)
      modifies this
      ensures r == Pass <==> HasDoc(old(members), circleId, userId)
      ensures r.Fail? ==> r.error == NoDocument && unchanged(this)
      ensures members == Mark(old(members), circleId, userId, f)
      ensures r == Pass ==> writes == old(writes) + multiset{MemberPath(circleId, userId)}
      ensures circles == old(circles) && users == old(users)
      ensures old(Valid()) ==> Valid()
    {
      if !(circleId in members && userId in members[circleId]) {
        return Fail(NoDocument);
      }
      members := members[circleId := members[circleId][userId := members[circleId][userId].With(f)]];
      writes := writes + multiset{MemberPath(circleId, userId)};
      r := Pass;
    }

    method SetMeSafe(circleId: string, userId: string, now: int) returns (r: Outcome<StoreError>)
      modifies this
      ensures r == Pass <==> HasDoc(old(members), circleId, userId)
      ensures r.Fail? ==> r.error == NoDocument && unchanged(this)
      ensures members == Mark(old(members), circleId, userId, SafeFields(now))
      ensures r == Pass ==> writes == old(writes) + multiset{MemberPath(circleId, userId)}
      ensures circles == old(circles) && users == old(users)
      ensures old(Valid()) ==> Valid()
    {
      r := WriteStatus(circleId, userId, SafeFields(now));
    }

    method SetMeUnsafe(circleId: string, userId: string) returns (r: Outcome<StoreError>)
      modifies this
      ensures r == Pass <==> HasDoc(old(members), circleId, userId)
      ensures r.Fail? ==> r.error == NoDocument && unchanged(this)
      ensures members == Mark(old(members), circleId, userId, UnreportedFields)
      ensures r == Pass ==> writes == old(writes) + multiset{MemberPath(circleId, userId)}
      ensures circles == old(circles) && users == old(users)
      ensures old(Valid()) ==> Valid()
    {
      r := WriteStatus(circleId, userId, UnreportedFields);
    }

    method SetMeSOS(circleId: string, userId: string) returns (r: Outcome<StoreError>)
      modifies this
      ensures r == Pass <==> HasDoc(old(members), circleId, userId)
      ensures r.Fail? ==> r.error == NoDocument && unchanged(this)
      ensures members == Mark(old(members), circleId, userId, SosFields)
      ensures r == Pass ==> writes == old(writes) + multiset{MemberPath(circleId, userId)}
      ensures circles == old(circles) && users == old(users)
      ensures old(Valid()) ==> Valid()
    {
      r := WriteStatus(circleId, userId, SosFields);
    }

    /** The status update in every circle of the user's list; it fails,
        after every update that can succeed has been made, when some listed
        circle has no document for the user. */
    method WriteStatusInAllCircles(userId: string, f: StatusFields) returns (r: Outcome<StoreError>)
      requires Consistent(f)
      modifies this
      ensures var ids := IdsIn(old(users), userId);
        && members == MarkAll(old(members), IdSet(ids), userId, f)
        && writes == old(writes) + MarkWrites(old(members), ids, userId)
        && (r == Pass <==> AllHaveDoc(old(members), ids, userId))
        && (r.Fail? ==> r.error == NoDocument)
      ensures circles == old(circles) && users == old(users)
      ensures old(Valid()) ==> Valid()
    {
      var ids := IdsIn(users, userId);
      ghost var before := members;
      MarkAllNone(before, userId, f);
      r := Pass;
      for i := 0 to |ids|
        invariant members == MarkAll(before, IdSet(ids[..i]), userId, f)
        invariant writes == old(writes) + MarkWrites(before, ids[..i], userId)
        invariant r == Pass <==> AllHaveDoc(before, ids[..i], userId)
        invariant r.Fail? ==> r.error == NoDocument
        invariant circles == old(circles) && users == old(users)
        invariant old(Valid()) ==> Valid()
      {
        ghost var w := writes;
        assert HasDoc(members, ids[i], userId) <==> HasDoc(before, ids[i], userId);
        var one := WriteStatus(ids[i], userId, f);
        if one.Fail? {
          r := one;
        }
        MarkAllStep(before, IdSet(ids[..i]), ids[i], userId, f);
        IdSetSnoc(ids, i);
        MarkWritesSnoc(before, ids, i, userId);
        AllHaveDocSnoc(before, ids, i, userId);
        ghost var step := if HasDoc(before, ids[i], userId) then multiset{MemberPath(ids[i], userId)} else multiset{};
        assert writes == w + step;
        MultisetAssoc(old(writes), MarkWrites(before, ids[..i], userId), step);
      }
      assert ids[..|ids|] == ids;
    }

    method SetMeSafeInAllCircles(userId: string, now: int) returns (r: Outcome<StoreError>)
      modifies this
      ensures var ids := IdsIn(old(users), userId);
        && members == MarkAll(old(members), IdSet(ids), userId, SafeFields(now))
        && writes == old(writes) + MarkWrites(old(members), ids, userId)
        && (r == Pass <==> AllHaveDoc(old(members), ids, userId))
      ensures circles == old(circles) && users == old(users)
      ensures old(Valid()) ==> Valid()
    {
      r := WriteStatusInAllCircles(userId, SafeFields(now));
    }

    method SetMeUnsafeInAllCircles(userId: string) returns (r: Outcome<StoreError>)
      modifies this
      ensures var ids := IdsIn(old(users), userId);
        && members == MarkAll(old(members), IdSet(ids), userId, UnreportedFields)
        && writes == old(writes) + MarkWrites(old(members), ids, userId)
        && (r == Pass <==> AllHaveDoc(old(members), ids, userId))
      ensures circles == old(circles) && users == old(users)
      ensures old(Valid()) ==> Valid()
    {
      r := WriteStatusInAllCircles(userId, UnreportedFields);
    }

    /** One update per member document of the circle. */
    method ResetAllMembers(circleId: string)
      modifies this
      ensures circleId !in old(members) ==> unchanged(this)
      ensures circleId in old(members) ==>
        && members == old(members)[circleId := ResetDocs(old(members[circleId]))]
        && writes == old(writes) + MemberPaths(circleId, old(members[circleId]).Keys)
      ensures circles == old(circles) && users == old(users)
      ensures old(Valid()) ==> Valid()
    {
      if circleId !in members {
        return;
      }
      var docs, batch := ResetBatch(circleId, members[circleId]);
      members := members[circleId := docs];
      writes := writes + batch;
    }

    /** The summary of one collection, counted document by document. */
    method GetCircleSummary(circleId: string) returns (r: Summary)
      ensures r == SummaryOf(DocsOf(circleId))
      ensures r.safe + r.sos <= r.total
    {
      var snap := DocsOf(circleId);
      var safe, sos := 0, 0;
      var pending := snap.Keys;
      while pending != {}
        invariant pending <= snap.Keys
        invariant sos == |SosIn(snap, snap.Keys - pending)|
        invariant safe == |SafeIn(snap, snap.Keys - pending)|
        invariant safe + sos <= |snap.Keys - pending|
        decreases pending
      {
        var k :| k in pending;
        ghost var done := snap.Keys - pending;
        CountStep(snap, done, k);
        if snap[k].status == Some(Sos) {
          sos := sos + 1;
        } else if snap[k].isSafe || snap[k].status == Some(Safe) {
          safe := safe + 1;
        }
        pending := pending - {k};
        assert snap.Keys - pending == done + {k};
      }
      assert snap.Keys - pending == snap.Keys;
      r := Summary(|snap|, safe, sos);
    }

    /** `snap.data()?.ownerId ?? null`. */
    function GetCircleOwner(circleId: string): (r: Option<string>)
      reads this
      ensures r.Some? <==> circleId in circles
      ensures r.Some? ==> r.value == circles[circleId].ownerId
    {
      if circleId in circles then Some(circles[circleId].ownerId) else None
    }

    /** The checks of removeMember, in the source's order. */
    method RemoveMember(circleId: string, memberId: string, requesterId: string)
      returns (r: Outcome<StoreError>)
      modifies this
      ensures circleId !in old(circles) ==> r == Pass && unchanged(this)
      ensures circleId in old(circles) && old(circles[circleId].ownerId) != requesterId ==>
        r == Fail(NotOwner) && unchanged(this)
      ensures circleId in old(circles) && old(circles[circleId].ownerId) == requesterId ==>
        if memberId !in old(DocsOf(circleId)) then r == Pass && unchanged(this)
        else if old(DocsOf(circleId))[memberId].userId == Some(requesterId) then r == Fail(CannotRemoveSelf) && unchanged(this)
        else
          && r == Pass
          && members == old(members)[circleId := old(members[circleId]) - {memberId}]
          && writes == old(writes) + multiset{MemberPath(circleId, memberId)}
          && circles == old(circles) && users == old(users)
      ensures old(Valid()) ==> Valid()
    {
      if circleId !in circles {
        return Pass;
      }
      var ownerId := circles[circleId].ownerId;
      if ownerId != requesterId {
        return Fail(NotOwner);
      }
      if !(circleId in members && memberId in members[circleId]) {
        return Pass;
      }
      if members[circleId][memberId].userId == Some(ownerId) {
        return Fail(CannotRemoveSelf);
      }
      members := members[circleId := members[circleId] - {memberId}];
      writes := writes + multiset{MemberPath(circleId, memberId)};
      r := Pass;
    }

    /** A missing user document is created whole; an existing one gets the
        given profile fields (never the e-mail), and no write when none is given. */
    method EnsureUserDoc(uid: string, email: Option<string>, patch: ProfilePatch)
      modifies this
      ensures uid !in old(users) ==>
        && users == old(users)[uid := UserDoc(Some(email.GetOr("")), Some(patch.displayName.GetOr("")),
             Some(patch.phone.GetOr("")), Some(patch.city.GetOr("")), Some(patch.location.GetOr("")),
             Some(patch.address.GetOr("")), Some([]))]
        && writes == old(writes) + multiset{UserPath(uid)}
      ensures uid in old(users) && GivesAny(patch) ==>
        && users == old(users)[uid := Patched(old(users[uid]), patch)]
        && writes == old(writes) + multiset{UserPath(uid)}
      ensures uid in old(users) && !GivesAny(patch) ==> users == old(users) && writes == old(writes)
      ensures circles == old(circles) && members == old(members)
      ensures old(Valid()) ==> Valid()
    {
      if uid !in users {
        users := users[uid := UserDoc(Some(email.GetOr("")), Some(patch.displayName.GetOr("")),
          Some(patch.phone.GetOr("")), Some(patch.city.GetOr("")), Some(patch.location.GetOr("")),
          Some(patch.address.GetOr("")), Some([]))];
        writes := writes + multiset{UserPath(uid)};
      } else if GivesAny(patch) {
        users := users[uid := Patched(users[uid], patch)];
        writes := writes + multiset{UserPath(uid)};
      }
    }

    /** No-op for a missing user document; otherwise the given fields only. */
    method UpdateUserProfile(uid: string, patch: ProfilePatch)
      modifies this
      ensures !(uid in old(users) && GivesAny(patch)) ==> unchanged(this)
      ensures uid in old(users) && GivesAny(patch) ==>
        && users == old(users)[uid := Patched(old(users[uid]), patch)]
        && writes == old(writes) + multiset{UserPath(uid)}
        && circles == old(circles) && members == old(members)
      ensures old(Valid()) ==> Valid()
    {
      if uid !in users {
        return;
      }
      if GivesAny(patch) {
        users := users[uid := Patched(users[uid], patch)];
        writes := writes + multiset{UserPath(uid)};
      }
    }

    /** A profile with '' for every missing field, null for a missing document. */
    function GetUserProfile(uid: string): (r: Option<Profile>)
      reads this
      ensures r.Some? <==> uid in users
      ensures r.Some? && users[uid].displayName.Some? ==> r.value.displayName == users[uid].displayName.value
      ensures r.Some? && users[uid].displayName.None? ==> r.value.displayName == ""
      ensures r.Some? && users[uid].phone.Some? ==> r.value.phone == users[uid].phone.value
      ensures r.Some? && users[uid].phone.None? ==> r.value.phone == ""
      ensures r.Some? && users[uid].city.Some? ==> r.value.city == users[uid].city.value
      ensures r.Some? && users[uid].city.None? ==> r.value.city == ""
      ensures r.Some? && users[uid].location.Some? ==> r.value.location == users[uid].location.value
      ensures r.Some? && users[uid].location.None? ==> r.value.location == ""
      ensures r.Some? && users[uid].address.Some? ==> r.value.address == users[uid].address.value
      ensures r.Some? && users[uid].address.None? ==> r.value.address == ""
    {
      if uid !in users then None
      else
        var d := users[uid];
        Some(Profile(d.displayName.GetOr(""), d.phone.GetOr(""), d.city.GetOr(""),
                     d.location.GetOr(""), d.address.GetOr("")))
    }
  }
}
