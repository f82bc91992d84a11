# Safe circle: a Dafny model of the status core

The app lets a user keep a *circle* of family members or friends. During an alert each member reports
"safe", raises an SOS, or has not reported yet ("unknown"). The owner of a circle sees a
summary, can reset every member's status, and can remove members or add them by phone number.
People join a circle with a six-character invite code.

There are two interchangeable back ends:

- a **local store**, which keeps JSON tables in the browser's storage (`mockStorage.ts`);
- a **remote store**, which keeps one document per circle, per member and per user (`circleService.ts`).

This project models the following parts of the app:

- **Both stores.**
  - The local store is the class `LocalStore.Store`, whose map fields the methods reassign.
  - The remote store is the class `RemoteStore.RemoteStore`. It also records the multiset of document paths each operation writes.
  - Each store has a row invariant: `isSafe` holds exactly when the status is safe, and exactly when `lastSafeAt` is set. Every writer keeps it.
  - The member limit is 25.
  - The duplicate-phone test compares digits only.
  - Only the owner can remove a member, and never their own row.
- **The hook layer** (`useCircle.ts`).
  - It converts stored rows into the view's member record.
  - It counts members who are not safe and members in SOS.
  - It dispatches each action to one store or the other.
- **The login rate limiter and sign-in flow** (`AuthContext.tsx`). At most 5 failures are allowed, then a one-minute lockout.
- **The input validators** (`validation.ts`) and the **Israeli phone helpers** (`phoneFormat.ts`).
- **Three pieces of display logic:**
  - relative-time labels (`relativeTime.ts`);
  - the shelter timer's `m:ss` display (`ShelterTimer.tsx`);
  - the equipment checklist's load, toggle and save (`EquipmentChecklist.tsx`).
- **The circle page's member list** (`CirclePage.tsx`): search, filter and the three sort orders, the remove-button rule, and the page flags.

These inputs become parameters:

- **Clock:** `now`, in milliseconds.
- **`Math.random()`:** a sequence `draws` of reals in [0, 1).
- **Generated id suffixes:** a `suffix` string.
- **The password-hash check and the remote sign-in:** functions passed to the sign-in model.

Strings are `seq<char>`. JavaScript's `trim` is modelled with the ECMAScript white-space and line-terminator set. `toUpperCase` and `toLowerCase` are modelled on ASCII letters.

## Model

| member | source | states |
|---|---|---|
| Text.DigitsOnly | src/lib/phoneFormat.ts:17-19 | `replace(/\D/g, '')`: the result is all digits and no longer than the input |
| Text.Trim | src/lib/validation.ts:9 | `trim()`: no white space at either end; only characters of the input; empty exactly when the input is all white space; identity on a trimmed string |
| Text.TrimIsSlice | src/lib/validation.ts:9 | the trimmed text is a slice of the input with only white space before and after it, which together with the trimmed ends fixes the result |
| Members.Transition | src/lib/mockStorage.ts:214-254 | every status write sets the target status, sets `isSafe` exactly for safe, and sets `lastSafeAt` to now exactly for safe; the result satisfies the row invariant |
| Members.InsertCount | src/lib/mockStorage.ts:192-212 | adding a new key grows a table by one and overwriting keeps its size, so a table under 25 rows stays within 25 |
| Members.WithCircle | src/lib/mockStorage.ts:100-107 | adding a circle id to a user's list: the id is present afterwards, nothing else is added, no duplicates appear, and an id already present leaves the list unchanged |
| Members.WithCircleIdempotent | src/lib/mockStorage.ts:100-107 | adding the same circle twice is adding it once |
| Members.Without | src/lib/mockStorage.ts:119-124 | `filter(id => id !== circleId)`: exactly the other ids remain, and no duplicates appear |
| Members.WithoutKeepsLength | src/lib/mockStorage.ts:119-124 | removing keeps the length exactly when the id was absent |
| Members.WithoutAbsent | src/lib/circleService.ts:129-137 | removing an absent id returns the list unchanged |
| InviteCode.Pick | src/lib/circleService.ts:22-27 | `Math.floor(Math.random() * chars.length)` is a valid index into the alphabet |
| InviteCode.CodeFrom | src/lib/mockStorage.ts:88-93 | one character per draw, each the alphabet letter the draw selects |
| InviteCode.MakeInviteCode | src/lib/circleService.ts:22-27 | the loop builds the code that `CodeFrom` specifies, and it is a six-character invite code |
| InviteCode.InviteCodeUnambiguous | src/lib/circleService.ts:23 | an invite code never contains 0, 1, I or O, and consists of capital letters and digits |
| LocalStore.NewRow | src/lib/mockStorage.ts:139-148 | a new member row carries its key as id, has status unknown, is not safe, and satisfies the row invariant |
| LocalStore.MarkRow | src/lib/mockStorage.ts:214-254 | a status write changes only the user's row, and only its status fields; a missing row is left missing |
| LocalStore.MarkAll | src/lib/mockStorage.ts:224-234 | writing in every circle of a user keeps the set of circles |
| LocalStore.ResetTable | src/lib/mockStorage.ts:256-266 | reset keeps every row and sets each to unknown, not safe, with no safe time |
| LocalStore.SummaryOf | src/lib/mockStorage.ts:268-275 | total is the number of rows; neither count exceeds it |
| LocalStore.SummaryPartition | src/lib/mockStorage.ts:268-275 | under the row invariant, safe, sos and unknown members partition the table, so safe + sos never exceeds the total |
| LocalStore.SummaryDoubleCounts | src/lib/mockStorage.ts:272-273 | without the invariant, a row with status sos and `isSafe` set is counted in both columns |
| LocalStore.ResetSummary | src/lib/mockStorage.ts:256-275 | after a reset the summary is (size, 0 safe, 0 sos) |
| LocalStore.ResetIdempotent | src/lib/mockStorage.ts:256-266 | resetting twice is resetting once |
| LocalStore.WritersKeepTableOk | src/lib/mockStorage.ts:214-266 | status writes and resets keep the row invariant |
| LocalStore.WritersKeepTableOkAll | src/lib/mockStorage.ts:214-254 | a status write keeps the invariant of every table of the store |
| LocalStore.MarkRowIdempotent | src/lib/mockStorage.ts:214-222 | writing the same status twice is writing it once |
| LocalStore.MergeProfile | src/lib/mockStorage.ts:298-308 | each field is the patch's value when given, otherwise the stored profile's value, or "" when no profile is stored |
| LocalStore.Store.constructor | src/lib/mockStorage.ts:19-86 | empty tables, which satisfy the store invariant |
| LocalStore.Store.AddCircleToUser | src/lib/mockStorage.ts:100-107 | the user's list becomes the list with the circle added; everything else is unchanged; the invariant is kept |
| LocalStore.Store.GetMyCircles | src/lib/mockStorage.ts:109-117 | one entry per listed circle id, in order, named after the circle or the fallback "מעגל" |
| LocalStore.Store.RemoveCircleFromUser | src/lib/mockStorage.ts:119-124 | the circle id is gone from the user's list, an unknown user is left alone, and nothing else changes |
| LocalStore.Store.CreateCircle | src/lib/mockStorage.ts:126-152 | the id is the invite code; the circle (default name when empty), its owner row, and the owner's list entry are written |
| LocalStore.Store.JoinCircle | src/lib/mockStorage.ts:154-173 | an unknown code (case-insensitive) returns none and changes nothing; otherwise a fresh row for the user is written under the code, and the circle is added to the user's list |
| LocalStore.Store.GetCircleOwner | src/lib/mockStorage.ts:175-178 | the owner is returned exactly when the circle exists |
| LocalStore.Store.GetCircle | src/lib/mockStorage.ts:277-279 | the circle is found exactly when the upper-cased code is a circle |
| LocalStore.Store.RemoveMember | src/lib/mockStorage.ts:180-190 | a non-owner gets NotOwner and an owner removing their own row gets CannotRemoveSelf, with nothing changed in either case; otherwise exactly that row is deleted |
| LocalStore.Store.AddMemberByPhone | src/lib/mockStorage.ts:192-212 | CircleFull at 25 rows, and DuplicatePhone when some row has the same digits, each leaving the store unchanged; otherwise one fresh row is added and the table stays within 25 |
| LocalStore.Store.SetMeSafe | src/lib/mockStorage.ts:214-222 | only the user's row in that circle becomes safe with time now |
| LocalStore.Store.SetMeUnsafe | src/lib/mockStorage.ts:236-244 | only the user's row in that circle becomes unknown |
| LocalStore.Store.SetMeSOS | src/lib/mockStorage.ts:246-254 | only the user's row in that circle becomes sos |
| LocalStore.Store.SetMeSafeInAllCircles | src/lib/mockStorage.ts:224-228 | the loop marks the user safe in exactly the circles on their list |
| LocalStore.Store.SetMeUnsafeInAllCircles | src/lib/mockStorage.ts:230-234 | the loop marks the user unknown in exactly the circles on their list |
| LocalStore.Store.ResetAllMembers | src/lib/mockStorage.ts:256-266 | the loop resets every row of that circle and touches no other circle |
| LocalStore.Store.GetCircleSummary | src/lib/mockStorage.ts:268-275 | total is the number of rows, and under the store invariant safe + sos is at most the total |
| LocalStore.Store.GetMembers | src/lib/mockStorage.ts:281-284 | the circle's rows, each carrying its key as id |
| LocalStore.Store.GetUserProfile | src/lib/mockStorage.ts:286-296 | the stored profile exactly when one exists |
| LocalStore.Store.UpdateUserProfile | src/lib/mockStorage.ts:298-308 | the profile becomes the merge of the stored one and the patch |
| LocalStore.Store.AddChatMessage | src/lib/mockStorage.ts:310-321 | the message is appended to the end of that circle's chat |
| RemoteStore.NewDoc | src/lib/circleService.ts:139-158 | a new member document has no status, is not safe, and satisfies the document invariant |
| RemoteStore.Mark | src/lib/circleService.ts:198-223 | a status update keeps every circle's set of documents |
| RemoteStore.MarkAll | src/lib/circleService.ts:208-218 | updating every circle of a user keeps every circle's set of documents |
| RemoteStore.MarkWrites | src/lib/circleService.ts:208-218 | at most one write per listed circle, each to that user's document in a circle where it exists |
| RemoteStore.ResetDocs | src/lib/circleService.ts:225-232 | every document of the circle becomes unknown and not safe, and satisfies the invariant |
| RemoteStore.ResetBatch | src/lib/circleService.ts:225-232 | the batch loop produces the reset documents and one write per member document |
| RemoteStore.SummaryBound | src/lib/circleService.ts:234-244 | sos is checked first and safe otherwise, so safe + sos never exceeds the total, with or without the invariant |
| RemoteStore.Patched | src/lib/circleService.ts:69-80 | only the given fields are replaced; the e-mail and circle list are kept |
| RemoteStore.PatchNothing | src/lib/circleService.ts:69-80 | a patch with no field leaves the document as it is |
| RemoteStore.Indexed | src/lib/circleService.ts:95-105 | the user's list becomes the list with the circle added; other users are unchanged; a missing user document is created with just that circle |
| RemoteStore.IndexWrite | src/lib/circleService.ts:95-105 | nothing is written exactly when the user document already lists the circle |
| RemoteStore.IndexedOk | src/lib/circleService.ts:95-105 | adding a circle keeps every user's list free of duplicates |
| RemoteStore.RemoteStore.constructor | src/lib/circleService.ts:1-20 | an empty database with no writes |
| RemoteStore.RemoteStore.AddCircleToUser | src/lib/circleService.ts:95-105 | the user documents become `Indexed`, with the matching writes |
| RemoteStore.RemoteStore.RemoveCircleFromUser | src/lib/circleService.ts:129-137 | the circle is filtered out of the list with one write when it was listed; otherwise nothing changes |
| RemoteStore.RemoteStore.CreateCircle | src/lib/circleService.ts:139-158 | the circle document, the owner's member document and the owner's index entry are written, and the id is the invite code |
| RemoteStore.RemoteStore.JoinCircle | src/lib/circleService.ts:160-175 | an unknown code returns none and writes nothing; otherwise a new member document and the index entry are written |
| RemoteStore.RemoteStore.FindDuplicatePhone | src/lib/circleService.ts:180-186 | the loop finds a duplicate exactly when some document has the same digits |
| RemoteStore.RemoteStore.AddMemberByPhone | src/lib/circleService.ts:177-194 | CircleFull at 25 documents and DuplicatePhone on equal digits, each changing nothing; otherwise one new document and one write |
| RemoteStore.RemoteStore.WriteStatus | src/lib/circleService.ts:198-223 | `updateDoc` fails with NoDocument exactly when the member document is missing and then writes nothing; otherwise exactly that document is updated |
| RemoteStore.RemoteStore.SetMeSafe | src/lib/circleService.ts:198-201 | as WriteStatus, with the safe fields at time now |
| RemoteStore.RemoteStore.SetMeUnsafe | src/lib/circleService.ts:203-206 | as WriteStatus, with the unknown fields |
| RemoteStore.RemoteStore.SetMeSOS | src/lib/circleService.ts:220-223 | as WriteStatus, with the sos fields |
| RemoteStore.RemoteStore.WriteStatusInAllCircles | src/lib/circleService.ts:208-218 | every listed circle is updated; the call passes exactly when every listed circle has the user's document |
| RemoteStore.RemoteStore.SetMeSafeInAllCircles | src/lib/circleService.ts:208-212 | WriteStatusInAllCircles with the safe fields |
| RemoteStore.RemoteStore.SetMeUnsafeInAllCircles | src/lib/circleService.ts:214-218 | WriteStatusInAllCircles with the unknown fields |
| RemoteStore.RemoteStore.ResetAllMembers | src/lib/circleService.ts:225-232 | every member document of the circle is reset in one batch, with one write each |
| RemoteStore.RemoteStore.GetCircleSummary | src/lib/circleService.ts:234-244 | the counting loop returns the summary, and safe + sos never exceeds the total |
| RemoteStore.RemoteStore.GetCircleOwner | src/lib/circleService.ts:269-273 | the owner is returned exactly when the circle document exists |
| RemoteStore.RemoteStore.RemoveMember | src/lib/circleService.ts:275-286 | a missing circle is a silent no-op, and a non-owner gets NotOwner; an owner removing their own row gets CannotRemoveSelf; otherwise exactly that document is deleted |
| RemoteStore.RemoteStore.EnsureUserDoc | src/lib/circleService.ts:37-67 | a missing user document is created from the e-mail and the patch; an existing one is patched only when the patch gives some field |
| RemoteStore.RemoteStore.UpdateUserProfile | src/lib/circleService.ts:69-80 | the patch is applied and written only when the document exists and the patch gives some field |
| RemoteStore.RemoteStore.GetUserProfile | src/lib/circleService.ts:82-93 | a profile exactly when the document exists; each of its five fields is the stored value, or "" when the field is missing |
| CircleHook.ToMillis | src/hooks/useCircle.ts:20-27 | a number is kept, a timestamp gives its milliseconds, and anything else gives null |
| CircleHook.RawStatus | src/hooks/useCircle.ts:30 | a non-empty stored status is used; otherwise the status is derived from `isSafe` |
| CircleHook.ToCircleMember | src/hooks/useCircle.ts:29-40 | fields are copied; the status is sos or safe exactly as stored, or derived from `isSafe`; any other value becomes unknown |
| CircleHook.LocalView | src/hooks/useCircle.ts:29-40 | a valid local row keeps its status, safe time and id through the conversion, and the view is consistent |
| CircleHook.RemoteView | src/hooks/useCircle.ts:29-40 | a valid remote document keeps its status (a missing one becomes unknown) and its safe time, and the view is consistent |
| CircleHook.NotSafeCount | src/hooks/useCircle.ts:88 | at most the number of members, and zero exactly when all are safe |
| CircleHook.SosCount | src/hooks/useCircle.ts:89 | at most the number of members, and zero exactly when none is in SOS |
| CircleHook.SosAmongNotSafe | src/hooks/useCircle.ts:88-89 | on consistent views every SOS member is counted as not safe |
| CircleHook.MarkSafe | src/hooks/useCircle.ts:64-68 | with no user nothing happens; otherwise only the chosen store changes: its members become the marked-in-all-circles tables, its other tables are kept, the remote log gains one write per listed circle holding the user's document, and both row invariants are kept |
| CircleHook.MarkUnsafe | src/hooks/useCircle.ts:70-74 | with no user nothing happens; otherwise only the chosen store changes: every listed circle's row becomes unknown, its other tables are kept, the remote log gains one write per listed circle holding the user's document, and both row invariants are kept |
| CircleHook.MarkSOS | src/hooks/useCircle.ts:76-80 | without both a circle and a user nothing happens; otherwise only the chosen store changes: that circle's row becomes sos and the other tables are kept; remotely it fails, writing nothing, exactly when the document is missing, and otherwise logs one write |
| CircleHook.ResetAll | src/hooks/useCircle.ts:82-86 | without a circle nothing happens; otherwise only the chosen store changes: every row of that circle is reset, the other tables are kept, and the remote log gains one write per document |
| CircleHook.HookCircleName | src/hooks/useCircle.ts:95 | the trimmed name, or the default name when it is missing or blank; never empty |
| CircleHook.CreateCircle | src/hooks/useCircle.ts:94-98 | the id is the invite code; only the chosen store changes: it gains the circle under the resolved name, the owner's row and the id in the owner's list, as the store itself writes them, and its other tables are kept |
| Validation.RemoveAngles | src/lib/validation.ts:8 | no angle bracket remains; only input characters remain; text without brackets is kept |
| Validation.RemoveAnglesAppend | src/lib/validation.ts:8 | removing the brackets of a concatenation concatenates the results |
| Validation.RemoveAnglesChar | src/lib/validation.ts:8 | a single bracket is dropped and any other single character is kept, so with the append lemma every non-bracket character survives, in order |
| Validation.SanitizeText | src/lib/validation.ts:6-11 | exactly the first min(n, 200) characters of the trimmed bracket-free text of length n; so at most 200 characters, no angle brackets, no leading space, and no trailing space when the trimmed text fits in 200 characters |
| Validation.SanitizeTextKeepsTrailingSpace | src/lib/validation.ts:6-11 | cutting after trimming can leave a trailing space (see Findings) |
| Validation.SanitizeTextTrimmed | src/lib/validation.ts:6-11 | the corrected order: at most 200 characters, no angle brackets, no space at either end |
| Validation.SanitizeOrdersAgree | src/lib/validation.ts:6-11 | whenever the trimmed text fits in 200 characters, the corrected order gives the same result as the written one |
| Validation.ValidateEmail | src/lib/validation.ts:13-19 | accepted exactly when the trimmed text is non-empty, at most 254 characters and matches the e-mail pattern |
| Validation.AcceptedEmailShape | src/lib/validation.ts:1 | an accepted address has one `@`, characters before it, and a dot after it followed by at least two characters |
| Validation.EmailMinLength | src/lib/validation.ts:1 | any address the pattern matches has at least six characters |
| Validation.EmailShapeAccepted | src/lib/validation.ts:13-19 | the converse of AcceptedEmailShape: an address of that shape and at most 254 characters is accepted |
| Validation.ShortEmailRejected | src/lib/validation.ts:13-19 | an address shorter than six characters once trimmed (such as "a@b.c") is rejected |
| Validation.BlankEmailMessage | src/lib/validation.ts:13-19 | blank input gets the "enter an e-mail" message |
| Validation.ValidatePassword | src/lib/validation.ts:21-26 | accepted exactly for lengths 6 to 128; empty gets the "enter password" message |
| Validation.ValidateDisplayName | src/lib/validation.ts:28-32 | accepted exactly when the trimmed name has at most 50 characters |
| Validation.ValidateAddress | src/lib/validation.ts:48-52 | accepted exactly when the trimmed address has at most 150 characters |
| Validation.ValidateCity | src/lib/validation.ts:54-58 | accepted exactly when the trimmed city has at most 80 characters |
| Validation.ValidateLocation | src/lib/validation.ts:60-64 | accepted exactly when the trimmed location has at most 80 characters |
| Validation.ValidatePhone | src/lib/validation.ts:34-43 | accepted exactly when the trimmed text is non-empty, matches the phone-character pattern, and has 9 digits starting 2-9 or 10 digits starting 0; each error message is given for its own case |
| Validation.AcceptedPhoneDigits | src/lib/validation.ts:34-43 | an accepted number has 9 or 10 digits and at most 20 characters |
| Validation.NineDigitsAccepted | src/lib/validation.ts:39-40 | nine digits starting 2-9 are accepted |
| Validation.ValidateInviteCode | src/lib/validation.ts:66-72 | accepted exactly when the trimmed, upper-cased code has six characters, all capital letters or digits; blank input gets the "enter code" message |
| Validation.GeneratedCodeAccepted | src/lib/validation.ts:66-72 | every generated invite code is accepted as it stands and typed in lower case |
| Validation.GeneratedCodePaddedAccepted | src/lib/validation.ts:66-72 | every generated invite code is accepted when surrounded by white space |
| PhoneFormat.NormalizePhone | src/lib/phoneFormat.ts:17-19 | all digits, no longer than the input |
| PhoneFormat.NormalizeDigitsUnchanged | src/lib/phoneFormat.ts:17-19 | a string of digits is returned unchanged |
| PhoneFormat.NormalizeIdempotent | src/lib/phoneFormat.ts:17-19 | normalising twice is normalising once |
| PhoneFormat.NormalizeKeepsDigits | src/lib/phoneFormat.ts:17-19 | distributes over concatenation, keeps a digit and drops any other character |
| PhoneFormat.FormatIsraeliPhone | src/lib/phoneFormat.ts:10-15 | nine digits give `0ddd-dddddd`; ten digits starting 0 give `dddd-dddddd`; anything else is returned unchanged |
| PhoneFormat.FormatKeepsDigits | src/lib/phoneFormat.ts:10-15 | formatting keeps the digits, except that a nine-digit number gains its leading zero |
| PhoneFormat.FormatIdempotent | src/lib/phoneFormat.ts:10-15 | formatting a formatted number changes nothing |
| PhoneFormat.IsValidIsraeliPhone | src/lib/phoneFormat.ts:4-8 | only nine-digit numbers can pass |
| PhoneFormat.NineDigitsMatch | src/lib/phoneFormat.ts:2 | a zero plus nine digits matches the pattern exactly when the first digit is 5 or 7 |
| PhoneFormat.IsValidIsraeliPhoneIff | src/lib/phoneFormat.ts:4-8 | true exactly for nine digits starting with 5 or 7 |
| PhoneFormat.TenDigitFormRejected | src/lib/phoneFormat.ts:1-8 | every ten-digit mobile number with its leading zero, such as "0501234567", matches the pattern but is rejected (see Findings) |
| PhoneFormat.FixedAcceptsBothForms | src/lib/phoneFormat.ts:1-8 | the corrected test accepts 9 digits starting 5/7 or 10 digits starting 0 then 5/7, and agrees with the original on nine digits |
| PhoneFormat.IsValidIsraeliPhoneFixed | src/lib/phoneFormat.ts:1-8 | the corrected test accepts only nine or ten digits, and accepts every number the test as written accepts |
| PhoneFormat.FormattedValidAccepted | src/lib/phoneFormat.ts:10-15 | a number the test accepts, once formatted, passes the form's phone validator |
| RelativeTime.FormatRelativeTime | src/lib/relativeTime.ts:2-16 | each label is stated on the elapsed milliseconds: under 10 s "now", then seconds, one minute, minutes, one hour, hours, yesterday, days, and over a week from 7 days |
| RelativeTime.NowAndWeekExactly | src/lib/relativeTime.ts:2-16 | "now" exactly under 10 s (future times included), and "over a week" exactly from 7 days |
| ShelterTimer.JsRem | src/components/ShelterTimer.tsx:5 | JavaScript `%`: Euclidean on non-negatives, and in (-60, 0] for negatives |
| ShelterTimer.JsRemTruncated | src/components/ShelterTimer.tsx:5 | the remainder is `a - b * q` with `q` the quotient truncated toward zero, as ECMAScript defines `%` |
| ShelterTimer.FormatDurationRoundTrip | src/components/ShelterTimer.tsx:3-7 | for any non-negative count: the minutes, one colon, then exactly two digits; reading it back gives the count |
| ShelterTimer.NegativeDuration | src/components/ShelterTimer.tsx:3-7 | -5 seconds shows as "-1:-5" |
| EquipmentChecklist.DefaultIdsDistinct | src/components/EquipmentChecklist.tsx:5-14 | the eight default items have distinct ids |
| EquipmentChecklist.FindSaved | src/components/EquipmentChecklist.tsx:22 | `find`: an entry with that id from the list, and none exactly when no entry has it |
| EquipmentChecklist.FindSavedFirst | src/components/EquipmentChecklist.tsx:22 | `find` returns the first entry with the id |
| EquipmentChecklist.Merged | src/components/EquipmentChecklist.tsx:21-24 | merging keeps the default's id and caption |
| EquipmentChecklist.LoadItems | src/components/EquipmentChecklist.tsx:16-28 | the defaults' ids and captions in order; the defaults when nothing usable is stored; otherwise each tick is the first stored entry's, else unticked |
| EquipmentChecklist.ForeignEntriesIgnored | src/components/EquipmentChecklist.tsx:21-24 | stored entries with unknown ids change nothing |
| EquipmentChecklist.Toggle | src/components/EquipmentChecklist.tsx:49-53 | the ticks of the items with that id flip; nothing else changes |
| EquipmentChecklist.ToggleTwice | src/components/EquipmentChecklist.tsx:49-53 | toggling twice restores the list |
| EquipmentChecklist.SaveItems | src/components/EquipmentChecklist.tsx:30-39 | one (id, tick) entry per item, in order |
| EquipmentChecklist.LoadAfterSave | src/components/EquipmentChecklist.tsx:16-39 | loading what was saved gives back any list with the defaults' ids and captions |
| EquipmentChecklist.CheckedCount | src/components/EquipmentChecklist.tsx:55 | at most the number of items; zero exactly when none is ticked; full exactly when all are |
| RateLimiter.SecondsLeft | src/contexts/AuthContext.tsx:97-100 | `Math.ceil` of the remaining milliseconds over 1000: at least 1 and the least such count |
| RateLimiter.Check | src/contexts/AuthContext.tsx:94-105 | rejects exactly while locked, with a Locked error of at least 1 second and the state unchanged; an expired lock resets the counter |
| RateLimiter.Failed | src/contexts/AuthContext.tsx:107-113 | the count grows by one, and reaching 5 sets the lock to now + 60000 |
| RateLimiter.CheckKeepsInv | src/contexts/AuthContext.tsx:94-105 | the check keeps the limiter invariant, and after a pass the user is unlocked with fewer than 5 failures |
| RateLimiter.SecondsLeftAtMostAMinute | src/contexts/AuthContext.tsx:25-26 | during a lockout the reported wait is 1 to 60 seconds |
| RateLimiter.BadAttempt | src/contexts/AuthContext.tsx:119-187 | a failed sign-in records a failure only when the check passed |
| RateLimiter.BadAttemptKeepsInv | src/contexts/AuthContext.tsx:94-113 | a failed sign-in keeps the invariant (count at most 5; locked exactly at 5) |
| RateLimiter.FewFailuresNoLock | src/contexts/AuthContext.tsx:107-113 | fewer than 5 failures never lock |
| RateLimiter.FiveFailuresLock | src/contexts/AuthContext.tsx:25-26 | five failures lock for one minute from the fifth: within it every check is rejected with 1-60 s left, and after it the check passes with a fresh counter |
| RateLimiter.BadAttemptsSplit | src/contexts/AuthContext.tsx:107-113 | a run of failures is the composition of its parts |
| RateLimiter.CredentialVerdict | src/contexts/AuthContext.tsx:123-181 | malformed exactly when the e-mail check fails, carrying its message; otherwise accepted exactly when, locally, the trimmed lower-cased address is a demo user whose non-empty hash verifies, or, remotely, the remote sign-in accepts the trimmed address |
| RateLimiter.LockedRejectsAll | src/contexts/AuthContext.tsx:119-121 | while locked every sign-in is rejected before the credentials are looked at, and the state is unchanged |
| RateLimiter.SignInRecords | src/contexts/AuthContext.tsx:119-187 | a malformed e-mail records no failure; wrong credentials record one; success resets the limiter |
| RateLimiter.SignInKeepsInv | src/contexts/AuthContext.tsx:119-187 | sign-in keeps the limiter invariant |
| RateLimiter.SignInResult | src/contexts/AuthContext.tsx:119-187 | sign-in succeeds exactly when no lock holds and the credentials are accepted, and then clears the limiter; while locked the state is kept; a failure is counted only for wrong credentials |
| RateLimiter.LoginLimiter.constructor | src/contexts/AuthContext.tsx:92 | a fresh limiter |
| RateLimiter.LoginLimiter.CheckRateLimit | src/contexts/AuthContext.tsx:94-105 | the new state and the result are those of `Check` |
| RateLimiter.LoginLimiter.RecordFailedAttempt | src/contexts/AuthContext.tsx:107-113 | the new state is `Failed` of the old |
| RateLimiter.LoginLimiter.ResetAttempts | src/contexts/AuthContext.tsx:115-117 | the limiter is fresh again |
| RateLimiter.LoginLimiter.SignIn | src/contexts/AuthContext.tsx:119-187 | the result and new state are the sign-in result of the old state and the credential verdict |
| MemberList.CanRemoveSafe | src/pages/CirclePage.tsx:62 | the remove button shows exactly for an owner viewing another member who has an account |
| MemberList.CanRemove | src/pages/CirclePage.tsx:62 | the button is shown only to the owner, and never on the owner's own row or on a row without an account |
| MemberList.NameCmp | src/pages/CirclePage.tsx:283 | a three-way comparison that is zero exactly on equal names |
| MemberList.NameCmpAnti | src/pages/CirclePage.tsx:283 | swapping the arguments negates the comparison |
| MemberList.NameCmpTrans | src/pages/CirclePage.tsx:283 | the comparison is transitive |
| MemberList.CompareConsistent | src/pages/CirclePage.tsx:274-288 | the sort comparator is antisymmetric and transitive in every mode, so the sort is well defined |
| MemberList.Compare | src/pages/CirclePage.tsx:274-288 | the viewer's row sorts first; then SOS before other rows and not-safe before safe by status, name order by name, and a later report first by time |
| MemberList.Insert | src/pages/CirclePage.tsx:274-288 | insertion adds exactly one element |
| MemberList.InsertSorted | src/pages/CirclePage.tsx:274-288 | insertion into a sorted list keeps it sorted |
| MemberList.Sort | src/pages/CirclePage.tsx:274-288 | the sort is a permutation of its input |
| MemberList.SortSorted | src/pages/CirclePage.tsx:274-288 | the result is ordered by the comparator |
| MemberList.Keep | src/pages/CirclePage.tsx:264-272 | `filter` keeps exactly the occurrences that satisfy the test |
| MemberList.FilteredAndSorted | src/pages/CirclePage.tsx:263-291 | the list is sorted and holds exactly the matching members, each as many times as given |
| MemberList.ResultIsMatchingRows | src/pages/CirclePage.tsx:263-272 | every shown row is a member that matches the search and the filter, and every matching member is shown |
| MemberList.Matches | src/pages/CirclePage.tsx:263-272 | a blank search with no filter keeps every row; the safe filter keeps only safe rows and the unsafe filter only the others |
| MemberList.ViewerFirst | src/pages/CirclePage.tsx:275-277 | the viewer's own rows come before everyone else's |
| MemberList.StatusOrder | src/pages/CirclePage.tsx:279-284 | in status mode, among rows equally the viewer's: SOS comes first, then not-safe before safe, then by name |
| MemberList.TimeOrder | src/pages/CirclePage.tsx:286 | in time mode, among other members, later safe times come first (a missing one counts as 0) |
| MemberList.NameOrder | src/pages/CirclePage.tsx:285 | in name mode, among other members, names are in order |
| MemberList.Flags | src/pages/CirclePage.tsx:428-431 | "all safe" exactly when there is someone and all are safe; then nobody is in SOS; "only me" excludes "at limit" |

## Left out

- Subscriptions and polling (`subscribeToMembers`, `subscribeToCircle`, `mockSubscribeToMembers`, the chat ticker): they only re-read state that the model exposes directly.
- Chat on the remote side (`sendChatMessage`, `subscribeToChat`, `chatService.ts`): a single document add. The local `addChatMessage` is modelled.
- Remote `getCircleByCode`: the same upper-cased lookup as the local `getCircle`, which is modelled.
- Remote `getMyCircles`: a read that is not modelled, and it differs from the modelled local `getMyCircles` in two ways. It drops every id whose circle document is missing, where the local one keeps an entry named 'מעגל'. It names a circle stored with an empty name 'מעגל' (`||`), where the local one keeps the empty name (`??`).
- LocalStore.Store.GetMembers: returns the circle's rows as a map keyed by id, so the order of `Object.entries` over the stored table is not modelled.
- The local `ensureUserDoc`: an empty function.
- JSON parsing and storage I/O: the tables are the parsed values. A stored checklist that fails to parse is `None`.
- Concurrency of `Promise.all` in the remote writes-in-all-circles: the updates are modelled one after another. The written paths are kept as a multiset, so their order is not recorded.
- React state, effects and rendering, including the percentage shown on the circle page, which is floating point.
- The password hash (`crypto.ts`) and the Firebase authentication SDK: they are parameters of the sign-in model. Sign-up, sign-out and profile refresh are not part of this model.
- RateLimiter.LoginLimiter.SignIn: reads the clock once per call. The source reads `Date.now()` separately in the check and in the failure record, and the model does not capture that difference.
- MemberList.Sort: proved to be a sorted permutation. The stability of `Array.prototype.sort` on ties is not proved.
- MemberList.NameCmp: `localeCompare(…, 'he')` is modelled as code-point lexicographic order, not Hebrew collation.
- Text.Upper / Text.Lower: only ASCII letters change case. JavaScript's full Unicode case mapping is not modelled.
- LocalStore.Store.SetMeSafeInAllCircles: reads the clock once for all circles. The source reads `Date.now()` again for each circle, so the circles' `lastSafeAt` values can differ by a few milliseconds there; the model does not capture that.
- LocalStore.Store.CreateCircle: one clock reading `now` stands for both `Date.now()` calls, the circle's `createdAt` and the owner row's `addedAt`, which can differ by a millisecond in the source.
- LocalStore.Store.AddMemberByPhone: one clock reading `now` stands for both `Date.now()` calls, the generated member id and the row's `addedAt`.
- LocalStore.Store.AddChatMessage: one clock reading `now` stands for both `Date.now()` calls, the message id and its `createdAt`.
- Lengths count code points, because a Dafny `char` is one code point. JavaScript's `.length` and `slice` count UTF-16 code units, so a character outside the Basic Multilingual Plane, such as an emoji, counts once here and twice in the source. Every length limit below can therefore decide differently on such input, and a JavaScript `slice` can cut a surrogate pair in half where the model cannot:
- Validation.ValidatePassword: the 6 and 128 limits count code points, not UTF-16 units. Three emoji are 6 units long and pass in the source, but are rejected here.
- Validation.ValidateDisplayName: the 50 limit counts code points, not UTF-16 units.
- Validation.ValidateAddress: the 150 limit counts code points, not UTF-16 units.
- Validation.ValidateCity: the 80 limit counts code points, not UTF-16 units.
- Validation.ValidateLocation: the 80 limit counts code points, not UTF-16 units.
- Validation.ValidateEmail: the 254 limit counts code points, not UTF-16 units.
- Validation.SanitizeText: the 200-character cut counts code points and never splits a surrogate pair.
- Validation.SanitizeTextTrimmed: the same cut, with the same difference.
- LocalStore.Store.AddChatMessage: the 100- and 2000-character prefixes count code points and never split a surrogate pair.
- ShelterTimer.FormatDuration: the string is stated through its round trip for non-negative counts and one negative example, not through a contract of its own.

## Findings

| source | as written | input that shows it | evidently intended | confidence | as-written member | corrected member |
|---|---|---|---|---|---|---|
| src/lib/validation.ts:6-11 | trims first, then cuts to 200 characters, so the cut can end on a space | 199 × "a", then " b" | sanitised text with no surrounding white space | medium, not executed | Validation.SanitizeTextKeepsTrailingSpace | Validation.SanitizeTextTrimmed |
| src/lib/phoneFormat.ts:4-8 | returns false unless there are exactly 9 digits | "0501234567" (the form the comment on line 1 names, and which the pattern matches) | accept the ten-digit form with a leading zero as well | medium, not executed | PhoneFormat.TenDigitFormRejected | PhoneFormat.FixedAcceptsBothForms |
