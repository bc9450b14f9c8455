/**
 * pkg/providers/aws/keys.go: classifying one access key against the age
 * policy, listing a user's keys, aggregating every user's keys sorted by name,
 * and rotating keys.
 */
module Keys {
  import opened Wrappers
  import opened Strings
  import opened Common
  import Users

  // ---------------------------------------------------------------------------
  // Data
  // ---------------------------------------------------------------------------

  /** One access key as reported. */
  datatype AccessKeyData = AccessKeyData(
    id: string,
    createDate: int,
    keyStatus: KeyStatus,
    lastUsedTime: Time,
    lastUsedService: string,
    matchesCriteria: bool,
    isExpired: bool)

  /** A user's keys. Go distinguishes a nil `Keys` slice from an empty one; every
      record built here has a nil slice exactly when no key was appended, so the
      empty sequence stands for nil. */
  datatype UserAccessKeyData = UserAccessKeyData(userName: string, keys: seq<AccessKeyData>)

  /** Go's `UserAccessKeyData{}`. */
  const EmptyRecord: UserAccessKeyData := UserAccessKeyData("", [])

  datatype AccessKeyRotationResult = AccessKeyRotationResult(userName: string, accessKeyId: string, secretAccessKey: string)

  /** The `UserData` interface of common.go as a tagged union; `OtherData` stands
      for the item types (login profiles) this model does not cover. */
  datatype UserData =
    | AccessKeys(data: UserAccessKeyData)
    | RotationResult(result: AccessKeyRotationResult)
    | OtherData(typeName: string)

  // ---------------------------------------------------------------------------
  // getAccessKeyDetails
  // ---------------------------------------------------------------------------

  /** Older than `stale` days at `now`. */
  predicate IsStale(createDate: int, now: int, stale: int)
  {
    now - createDate > stale * SecondsPerDay
  }

  /** The classification of one key, given its last-use answer. */
  function KeyDetails(meta: KeyMetadata, used: LastUsed, now: int, expired: bool, stale: int): (k: AccessKeyData)
    ensures k.id == meta.accessKeyId && k.createDate == meta.createDate && k.keyStatus == meta.status
    ensures k.isExpired <==> IsStale(meta.createDate, now, stale)
    ensures k.matchesCriteria <==> !expired || k.isExpired
    ensures used.lastUsedDate.None? ==> k.lastUsedService == "n/a" && k.lastUsedTime == Zero
    ensures used.lastUsedDate.Some? ==>
      k.lastUsedService == used.serviceName && k.lastUsedTime == At(used.lastUsedDate.value)
  {
    var isExpired := IsStale(meta.createDate, now, stale);
    AccessKeyData(
      meta.accessKeyId, meta.createDate, meta.status,
      if used.lastUsedDate.Some? then At(used.lastUsedDate.value) else Zero,
      if used.lastUsedDate.Some? then used.serviceName else "n/a",
      !expired || isExpired,
      isExpired)
  }

  /** `getAccessKeyDetails`: fails, with its own error, exactly when the
      last-use lookup fails. */
  function GetAccessKeyDetails(api: Directory, meta: KeyMetadata, now: int, expired: bool, stale: int): (r: Result<AccessKeyData, Error>)
    ensures r.Failure? <==> api.getAccessKeyLastUsed(meta.accessKeyId).Failure?
    ensures r.Failure? ==> r.error == LastUsedUnavailable
    ensures r.Success? ==>
      r.value == KeyDetails(meta, api.getAccessKeyLastUsed(meta.accessKeyId).value, now, expired, stale)
  {
    match api.getAccessKeyLastUsed(meta.accessKeyId)
    case Failure(_) => Failure(LastUsedUnavailable)
    case Success(used) => Success(KeyDetails(meta, used, now, expired, stale))
  }

  /** The expired-only filter changes nothing but `MatchesCriteria`, which it
      sets to `IsExpired`; and a key expired now stays expired later. */
  lemma ExpiredOnlyChangesOnlyMatch(meta: KeyMetadata, used: LastUsed, now: int, later: int, stale: int)
    requires now <= later
    ensures KeyDetails(meta, used, now, true, stale)
         == KeyDetails(meta, used, now, false, stale).(matchesCriteria := KeyDetails(meta, used, now, false, stale).isExpired)
    ensures KeyDetails(meta, used, now, false, stale).isExpired ==> KeyDetails(meta, used, later, false, stale).isExpired
  {
  }

  // ---------------------------------------------------------------------------
  // ListAccessKeys
  // ---------------------------------------------------------------------------

  /** The keys of `metas` whose last-use lookup answers, classified, in
      listing order. */
  function FetchedKeys(api: Directory, metas: seq<KeyMetadata>, now: int, expired: bool, stale: int): seq<AccessKeyData>
  {
    if |metas| == 0 then []
    else
      var details := GetAccessKeyDetails(api, metas[|metas| - 1], now, expired, stale);
      FetchedKeys(api, metas[..|metas| - 1], now, expired, stale) + (if details.Success? then [details.value] else [])
  }

  /** Some key satisfies the filter. */
  predicate HasMatch(keys: seq<AccessKeyData>)
  {
    exists i :: 0 <= i < |keys| && keys[i].matchesCriteria
  }

  /** What `ListAccessKeys` returns for `userName`. */
  function ListAccessKeysSpec(api: Directory, clock: Clock, userName: string, timeZone: string, expired: bool, stale: int)
    : Result<UserAccessKeyData, Error>
  {
    if !clock.knownZone(timeZone) then Failure(UnknownTimeZone(timeZone))
    else match api.listAccessKeys(userName)
      case Failure(e) => Failure(e)
      case Success(metas) =>
        if |metas| == 0 then Success(EmptyRecord)
        else
          var keys := FetchedKeys(api, metas, clock.now, expired, stale);
          if expired && !HasMatch(keys) then Success(EmptyRecord)
          else Success(UserAccessKeyData(userName, keys))
  }

  /** `UserWrapper.ListAccessKeys`. */
  method ListAccessKeys(api: Directory, clock: Clock, userName: string, timeZone: string, expired: bool, stale: int)
    returns (r: Result<UserAccessKeyData, Error>)
    ensures r == ListAccessKeysSpec(api, clock, userName, timeZone, expired, stale)
  {
    if !clock.knownZone(timeZone) {
      return Failure(UnknownTimeZone(timeZone));
    }
    var listed := api.listAccessKeys(userName);
    if listed.Failure? {
      return Failure(listed.error);
    }
    var metas := listed.value;
    if |metas| == 0 {
      return Success(EmptyRecord);
    }
    var keys: seq<AccessKeyData> := [];
    var hasMatch := false;
    var i := 0;
    while i < |metas|
      invariant 0 <= i <= |metas|
      invariant keys == FetchedKeys(api, metas[..i], clock.now, expired, stale)
      invariant hasMatch == HasMatch(keys)
    {
      var details := GetAccessKeyDetails(api, metas[i], clock.now, expired, stale);
      assert metas[..i + 1][..i] == metas[..i];
      if details.Success? {
        ghost var before := keys;
        keys := keys + [details.value];
        assert keys[|keys| - 1] == details.value;
        if details.value.matchesCriteria {
          hasMatch := true;
        }
        assert HasMatch(keys) <==> HasMatch(before) || details.value.matchesCriteria by {
          if HasMatch(before) {
            var j :| 0 <= j < |before| && before[j].matchesCriteria;
            assert keys[j] == before[j];
          }
          if HasMatch(keys) {
            var j :| 0 <= j < |keys| && keys[j].matchesCriteria;
            if j < |before| { assert before[j] == keys[j]; }
          }
        }
      }
      i := i + 1;
    }
    assert metas[..i] == metas;
    if expired && !hasMatch {
      return Success(EmptyRecord);
    }
    return Success(UserAccessKeyData(userName, keys));
  }

  /** Listing order is kept: the keys fetched from two runs of metadata are
      those of the first run followed by those of the second. */
  lemma {:induction false} FetchedKeysAppend(api: Directory, a: seq<KeyMetadata>, b: seq<KeyMetadata>, now: int, expired: bool, stale: int)
    ensures FetchedKeys(api, a + b, now, expired, stale) == FetchedKeys(api, a, now, expired, stale) + FetchedKeys(api, b, now, expired, stale)
    decreases |b|
  {
    if |b| == 0 {
      assert a + b == a;
    } else {
      var b' := b[..|b| - 1];
      assert (a + b)[..|a + b| - 1] == a + b';
      assert (a + b)[|a + b| - 1] == b[|b| - 1];
      FetchedKeysAppend(api, a, b', now, expired, stale);
    }
  }

  /** A key is kept exactly when its last-use lookup answers, and then it is
      kept classified. */
  lemma {:induction false} FetchedKeysMembers(api: Directory, metas: seq<KeyMetadata>, now: int, expired: bool, stale: int, k: AccessKeyData)
    ensures k in FetchedKeys(api, metas, now, expired, stale) <==>
      exists i :: 0 <= i < |metas| && api.getAccessKeyLastUsed(metas[i].accessKeyId).Success?
                && k == KeyDetails(metas[i], api.getAccessKeyLastUsed(metas[i].accessKeyId).value, now, expired, stale)
  {
    if |metas| > 0 {
      var init := metas[..|metas| - 1];
      var last := metas[|metas| - 1];
      FetchedKeysMembers(api, init, now, expired, stale, k);
      if exists i :: 0 <= i < |metas| && api.getAccessKeyLastUsed(metas[i].accessKeyId).Success?
                && k == KeyDetails(metas[i], api.getAccessKeyLastUsed(metas[i].accessKeyId).value, now, expired, stale) {
        var i :| 0 <= i < |metas| && api.getAccessKeyLastUsed(metas[i].accessKeyId).Success?
                && k == KeyDetails(metas[i], api.getAccessKeyLastUsed(metas[i].accessKeyId).value, now, expired, stale);
        if i < |init| { assert init[i] == metas[i]; }
      }
      if k in FetchedKeys(api, init, now, expired, stale) {
        var i :| 0 <= i < |init| && api.getAccessKeyLastUsed(init[i].accessKeyId).Success?
                && k == KeyDetails(init[i], api.getAccessKeyLastUsed(init[i].accessKeyId).value, now, expired, stale);
        assert metas[i] == init[i];
      }
    }
  }

  /** With every lookup answering, one key is kept per listed key, in order. */
  lemma {:induction false} FetchedKeysComplete(api: Directory, metas: seq<KeyMetadata>, now: int, expired: bool, stale: int)
    requires forall i :: 0 <= i < |metas| ==> api.getAccessKeyLastUsed(metas[i].accessKeyId).Success?
    ensures var keys := FetchedKeys(api, metas, now, expired, stale);
      && |keys| == |metas|
      && forall i :: 0 <= i < |metas| ==>
           keys[i] == KeyDetails(metas[i], api.getAccessKeyLastUsed(metas[i].accessKeyId).value, now, expired, stale)
  {
    if |metas| > 0 {
      var init := metas[..|metas| - 1];
      forall i | 0 <= i < |init| ensures api.getAccessKeyLastUsed(init[i].accessKeyId).Success? {
        assert init[i] == metas[i];
      }
      FetchedKeysComplete(api, init, now, expired, stale);
    }
  }

  /** The key list under the expired-only filter is the unfiltered one with
      `MatchesCriteria` replaced by `IsExpired`. */
  function MarkExpiredOnly(keys: seq<AccessKeyData>): (r: seq<AccessKeyData>)
    ensures |r| == |keys|
    ensures forall i :: 0 <= i < |keys| ==> r[i] == keys[i].(matchesCriteria := keys[i].isExpired)
  {
    if |keys| == 0 then [] else MarkExpiredOnly(keys[..|keys| - 1]) + [keys[|keys| - 1].(matchesCriteria := keys[|keys| - 1].isExpired)]
  }

  lemma {:induction false} FetchedKeysExpiredOnly(api: Directory, metas: seq<KeyMetadata>, now: int, stale: int)
    ensures FetchedKeys(api, metas, now, true, stale) == MarkExpiredOnly(FetchedKeys(api, metas, now, false, stale))
  {
    if |metas| > 0 {
      var init := metas[..|metas| - 1];
      FetchedKeysExpiredOnly(api, init, now, stale);
      var last := metas[|metas| - 1];
      if api.getAccessKeyLastUsed(last.accessKeyId).Success? {
        ExpiredOnlyChangesOnlyMatch(last, api.getAccessKeyLastUsed(last.accessKeyId).value, now, now, stale);
      }
    }
  }

  /** What a user's record holds. A failed zone load or key listing is an
      error; no keys, or the expired-only filter with no stale key, gives the
      empty record; otherwise the record names the user and holds every fetched
      key, including those the filter does not match. */
  lemma ListAccessKeysOutcome(api: Directory, clock: Clock, userName: string, timeZone: string, expired: bool, stale: int)
    ensures var r := ListAccessKeysSpec(api, clock, userName, timeZone, expired, stale);
      && (r.Failure? <==> !clock.knownZone(timeZone) || api.listAccessKeys(userName).Failure?)
      && (clock.knownZone(timeZone) && api.listAccessKeys(userName).Success? ==>
           var metas := api.listAccessKeys(userName).value;
           var keys := FetchedKeys(api, metas, clock.now, expired, stale);
           if |metas| == 0 || (expired && forall i :: 0 <= i < |keys| ==> !keys[i].isExpired)
           then r == Success(EmptyRecord)
           else r == Success(UserAccessKeyData(userName, keys)))
  {
    if clock.knownZone(timeZone) && api.listAccessKeys(userName).Success? {
      var metas := api.listAccessKeys(userName).value;
      var keys := FetchedKeys(api, metas, clock.now, expired, stale);
      if expired {
        FetchedKeysExpiredOnly(api, metas, clock.now, stale);
        assert HasMatch(keys) <==> exists i :: 0 <= i < |keys| && keys[i].isExpired;
      }
    }
  }

  /** Under the expired-only filter a user's record is either empty or the
      unfiltered record with `MatchesCriteria` replaced by `IsExpired`, and then
      at least one of its keys is expired. */
  lemma ExpiredOnlyRefinesUnfiltered(api: Directory, clock: Clock, userName: string, timeZone: string, stale: int)
    ensures var filtered := ListAccessKeysSpec(api, clock, userName, timeZone, true, stale);
      var plain := ListAccessKeysSpec(api, clock, userName, timeZone, false, stale);
      && (filtered.Failure? <==> plain.Failure?)
      && (filtered.Success? && filtered.value != EmptyRecord ==>
            && filtered.value.userName == plain.value.userName
            && filtered.value.keys == MarkExpiredOnly(plain.value.keys)
            && exists i :: 0 <= i < |filtered.value.keys| && filtered.value.keys[i].isExpired)
  {
    if clock.knownZone(timeZone) && api.listAccessKeys(userName).Success? {
      var metas := api.listAccessKeys(userName).value;
      FetchedKeysExpiredOnly(api, metas, clock.now, stale);
    }
  }

  // ---------------------------------------------------------------------------
  // Sorting by user name
  // ---------------------------------------------------------------------------

  /** `x` may stand before `y`: the `sort.Slice` comparator does not put `y` first. */
  predicate NotAfter(x: UserAccessKeyData, y: UserAccessKeyData)
  {
    !LexLess(y.userName, x.userName)
  }

  /** Ascending by user name. */
  predicate SortedByName(s: seq<UserAccessKeyData>)
  {
    forall i, j :: 0 <= i < j < |s| ==> NotAfter(s[i], s[j])
  }

  /** The `sort.Slice` call with `less(i, j) = name_i < name_j`: ascending by
      user name, a permutation of the input; the order among equal names is
      unspecified, as `sort.Slice` is not stable. */
  method SortByUserName(a: array<UserAccessKeyData>)
    modifies a
    ensures SortedByName(a[..])
    ensures multiset(a[..]) == multiset(old(a[..]))
  {
    var i := 0;
    while i < a.Length
      invariant 0 <= i <= a.Length
      invariant forall p, q :: 0 <= p < q < i ==> NotAfter(a[p], a[q])
      invariant multiset(a[..]) == multiset(old(a[..]))
    {
      InsertIntoSorted(a, i);
      i := i + 1;
    }
  }

  /** One insertion step: moves `a[i]` left past every name after its own. */
  method InsertIntoSorted(a: array<UserAccessKeyData>, i: nat)
    requires i < a.Length
    requires forall p, q :: 0 <= p < q < i ==> NotAfter(a[p], a[q])
    modifies a
    ensures forall p, q :: 0 <= p < q <= i ==> NotAfter(a[p], a[q])
    ensures multiset(a[..]) == multiset(old(a[..]))
  {
    var j := i;
    while j > 0 && LexLess(a[j].userName, a[j - 1].userName)
      invariant 0 <= j <= i
      invariant forall p, q :: 0 <= p < q < j ==> NotAfter(a[p], a[q])
      invariant forall p, q :: j <= p < q <= i ==> NotAfter(a[p], a[q])
      invariant forall p, q :: 0 <= p < j < q <= i ==> NotAfter(a[p], a[q])
      invariant multiset(a[..]) == multiset(old(a[..]))
    {
      LexLessAsymmetric(a[j].userName, a[j - 1].userName);
      Swap(a, j - 1, j);
      j := j - 1;
    }
    forall p | 0 <= p < j
      ensures NotAfter(a[p], a[j])
    {
      if p < j - 1 {
        NotLessTransitive(a[p].userName, a[j - 1].userName, a[j].userName);
      }
    }
  }

  method Swap(a: array<UserAccessKeyData>, i: nat, j: nat)
    requires i < j < a.Length
    modifies a
    ensures a[..] == old(a[..])[i := old(a[j])][j := old(a[i])]
    ensures a[i] == old(a[j]) && a[j] == old(a[i])
    ensures forall k :: 0 <= k < a.Length && k != i && k != j ==> a[k] == old(a[k])
    ensures multiset(a[..]) == multiset(old(a[..]))
  {
    a[i], a[j] := a[j], a[i];
  }

  // ---------------------------------------------------------------------------
  // GetUserAccessKey
  // ---------------------------------------------------------------------------

  /** `GetWrapperInputs` without the client, which is the `api` parameter. */
  datatype GetWrapperInputs = GetWrapperInputs(maxUsers: int, timeZone: string, userName: string, age: int, expired: bool)

  /** The users whose keys are fetched: the named user without any listing
      call, or the listing. */
  function WorkingSet(api: Directory, input: GetWrapperInputs): (run: Users.Listing)
    requires input.userName != "" || Users.Serves(api.pages, input.maxUsers)
    ensures input.userName != "" ==> run == Users.Listing(Success([User(input.userName)]), [])
  {
    if input.userName != "" then Users.Listing(Success([User(input.userName)]), [])
    else Users.Paginate(api.pages, input.maxUsers, 0, None)
  }

  /** What the per-user fetches leave behind: the records kept and the errors
      logged, in user order. */
  datatype Collection = Collection(kept: seq<UserAccessKeyData>, errors: seq<Error>)

  /** The keys.go fan-out: a failed fetch is logged, a record without keys is
      dropped, any other record is kept. */
  function Collect(api: Directory, clock: Clock, users: seq<User>, input: GetWrapperInputs): Collection
  {
    if |users| == 0 then Collection([], [])
    else
      var c := Collect(api, clock, users[..|users| - 1], input);
      match ListAccessKeysSpec(api, clock, users[|users| - 1].userName, input.timeZone, input.expired, input.age)
      case Failure(e) => Collection(c.kept, c.errors + [e])
      case Success(record) => if |record.keys| > 0 then Collection(c.kept + [record], c.errors) else c
  }

  /** `GetUserAccessKey` of keys.go. A failed listing ends the process
      (`log.Fatalf`), modelled as a failure; `logged` are the per-user errors it
      logs and `sent` the listing requests. */
  method GetUserAccessKey(api: Directory, clock: Clock, input: GetWrapperInputs)
    returns (r: Result<seq<UserAccessKeyData>, Error>, logged: seq<Error>, sent: seq<UsersRequest>)
    requires input.userName != "" || Users.Serves(api.pages, input.maxUsers)
    ensures sent == WorkingSet(api, input).sent
    ensures WorkingSet(api, input).result.Failure? ==> r == Failure(WorkingSet(api, input).result.error) && logged == []
    ensures WorkingSet(api, input).result.Success? ==>
      var c := Collect(api, clock, WorkingSet(api, input).result.value, input);
      && r.Success? && SortedByName(r.value) && multiset(r.value) == multiset(c.kept)
      && logged == c.errors
  {
    var users: seq<User>;
    if input.userName != "" {
      users := [User(input.userName)];
      sent := [];
    } else {
      var listed;
      listed, sent := Users.ListUsers(api, input.maxUsers);
      if listed.Failure? {
        return Failure(listed.error), [], sent;
      }
      users := listed.value;
    }
    var kept;
    kept, logged := FetchAll(api, clock, users, input);
    var a := new UserAccessKeyData[|kept|](j requires 0 <= j < |kept| => kept[j]);
    assert a[..] == kept;
    SortByUserName(a);
    r := Success(a[..]);
  }

  /** The fan-out of `GetUserAccessKey`: each user's keys are fetched in turn;
      a failure is logged, and a record is kept when it holds keys. */
  method FetchAll(api: Directory, clock: Clock, users: seq<User>, input: GetWrapperInputs)
    returns (kept: seq<UserAccessKeyData>, logged: seq<Error>)
    ensures Collection(kept, logged) == Collect(api, clock, users, input)
  {
    kept, logged := [], [];
    var i := 0;
    while i < |users|
      invariant 0 <= i <= |users|
      invariant Collection(kept, logged) == Collect(api, clock, users[..i], input)
    {
      var keyData := ListAccessKeys(api, clock, users[i].userName, input.timeZone, input.expired, input.age);
      assert users[..i + 1][..i] == users[..i];
      if keyData.Failure? {
        logged := logged + [keyData.error];
      } else if |keyData.value.keys| > 0 {
        kept := kept + [keyData.value];
      }
      i := i + 1;
    }
    assert users[..i] == users;
  }

  /** The records kept are exactly the non-empty records of the users whose
      fetch succeeded, each naming its user; an error is logged for exactly the
      users whose fetch failed. */
  lemma {:induction false} CollectMembers(api: Directory, clock: Clock, users: seq<User>, input: GetWrapperInputs, record: UserAccessKeyData, e: Error)
    ensures var c := Collect(api, clock, users, input);
      && (record in c.kept <==>
            exists i :: 0 <= i < |users| && |record.keys| > 0
              && ListAccessKeysSpec(api, clock, users[i].userName, input.timeZone, input.expired, input.age) == Success(record))
      && (e in c.errors <==>
            exists i :: 0 <= i < |users|
              && ListAccessKeysSpec(api, clock, users[i].userName, input.timeZone, input.expired, input.age) == Failure(e))
      && (forall k :: 0 <= k < |c.kept| ==> exists i :: 0 <= i < |users| && c.kept[k].userName == users[i].userName)
  {
    if |users| > 0 {
      var init := users[..|users| - 1];
      CollectMembers(api, clock, init, input, record, e);
      var c0 := Collect(api, clock, init, input);
      var c := Collect(api, clock, users, input);
      forall i | 0 <= i < |init| ensures init[i] == users[i] { }
      forall k | 0 <= k < |c.kept| ensures exists i :: 0 <= i < |users| && c.kept[k].userName == users[i].userName {
        if k < |c0.kept| {
          CollectMembers(api, clock, init, input, c0.kept[k], e);
          assert c.kept[k] == c0.kept[k];
          var i :| 0 <= i < |init| && c0.kept[k].userName == init[i].userName;
          assert users[i] == init[i];
        } else {
          var last := users[|users| - 1];
          ListAccessKeysOutcome(api, clock, last.userName, input.timeZone, input.expired, input.age);
          assert c.kept[k].userName == last.userName;
        }
      }
    }
  }

  /** The end-to-end case: alice's only key is 120 days old, bob's 10 days old,
      the threshold is 90 days and only expired keys are wanted. Only alice's
      record is kept, with its key flagged expired, so the sorted result is that
      one record. */
  lemma ExpiredOnlyScenario(now: int, result: seq<UserAccessKeyData>)
    requires multiset(result) == multiset(Collect(ScenarioDirectory(now), Clock(now, z => true),
                                                  [User("alice"), User("bob")], GetWrapperInputs(50, "UTC", "", 90, true)).kept)
    ensures |result| == 1 && result[0].userName == "alice"
    ensures |result[0].keys| == 1 && result[0].keys[0].id == "AKIAALICE" && result[0].keys[0].isExpired
  {
    var api := ScenarioDirectory(now);
    var clock := Clock(now, z => true);
    var input := GetWrapperInputs(50, "UTC", "", 90, true);
    var alice := KeyMetadata("AKIAALICE", now - 120 * SecondsPerDay, Active);
    var aliceKey := KeyDetails(alice, LastUsed(None, ""), now, true, 90);
    var aliceKeys := FetchedKeys(api, [alice], now, true, 90);
    assert aliceKeys == [aliceKey] by {
      assert [alice][..0] == [];
      assert api.getAccessKeyLastUsed(alice.accessKeyId) == Success(LastUsed(None, ""));
      assert GetAccessKeyDetails(api, alice, now, true, 90) == Success(aliceKey);
      assert FetchedKeys(api, [alice][..0], now, true, 90) == [];
    }
    assert HasMatch(aliceKeys) by { assert aliceKeys[0].matchesCriteria; }
    var bob := KeyMetadata("AKIABOB", now - 10 * SecondsPerDay, Active);
    var bobKeys := FetchedKeys(api, [bob], now, true, 90);
    assert bobKeys == [KeyDetails(bob, LastUsed(None, ""), now, true, 90)] by {
      assert [bob][..0] == [];
      assert api.getAccessKeyLastUsed(bob.accessKeyId) == Success(LastUsed(None, ""));
    }
    assert !HasMatch(bobKeys);
    var users := [User("alice"), User("bob")];
    assert users[..1] == [User("alice")] && users[..1][..0] == [];
    var record := UserAccessKeyData("alice", aliceKeys);
    assert api.listAccessKeys("alice") == Success([alice]);
    assert api.listAccessKeys("bob") == Success([bob]);
    assert ListAccessKeysSpec(api, clock, "alice", "UTC", true, 90) == Success(record);
    assert ListAccessKeysSpec(api, clock, "bob", "UTC", true, 90) == Success(EmptyRecord);
    assert Collect(api, clock, users[..1], input).kept == [record];
    assert Collect(api, clock, users, input).kept == [record];
    assert record in multiset(result);
    assert |result| == 1;
    assert result == [record] by {
      assert record in result;
    }
    assert aliceKey.id == "AKIAALICE" && aliceKey.isExpired;
  }

  /** The service behind `ExpiredOnlyScenario`: one key each, never used. */
  function ScenarioDirectory(now: int): Directory
  {
    Directory(
      [Success(UsersPage([User("alice"), User("bob")], false, None))],
      name => Failure(NoSuchEntity),
      name =>
        if name == "alice" then Success([KeyMetadata("AKIAALICE", now - 120 * SecondsPerDay, Active)])
        else if name == "bob" then Success([KeyMetadata("AKIABOB", now - 10 * SecondsPerDay, Active)])
        else Success([]),
      id => Success(LastUsed(None, "")))
  }

  // ---------------------------------------------------------------------------
  // RotateAccessKeys
  // ---------------------------------------------------------------------------

  /** The mutating IAM calls rotation makes, in the order it makes them. */
  datatype Call =
    | UpdateAccessKey(userName: string, accessKeyId: string, status: KeyStatus)
    | DeleteAccessKey(userName: string, accessKeyId: string)
    | CreateAccessKey(userName: string)

  /** What a successful `CreateAccessKey` returns. */
  datatype NewKey = NewKey(accessKeyId: string, secretAccessKey: string)

  /** The token `fmt.Scanln` reads for a prompt; an exhausted input reads as "". */
  function Reply(answers: seq<string>): string
  {
    if |answers| > 0 then answers[0] else ""
  }

  /** The answers left after one prompt. */
  function Consume(answers: seq<string>): seq<string>
  {
    if |answers| > 0 then answers[1..] else []
  }

  /** The `n`-th answer (from 0), "" past the end. */
  function AnswerAt(answers: seq<string>, n: nat): string
  {
    if n < |answers| then answers[n] else ""
  }

  /** The answers left after `n` prompts. */
  function Drop(answers: seq<string>, n: nat): seq<string>
  {
    if n <= |answers| then answers[n..] else []
  }

  /** Expired and still active: the keys rotation offers to deactivate. */
  predicate DueForDeactivation(k: AccessKeyData)
  {
    k.isExpired && k.keyStatus == Active
  }

  /** Calls made and answers left by a run of prompts. */
  datatype Prompted = Prompted(calls: seq<Call>, unread: seq<string>)

  /** The deactivation pass over one user's keys, in key order. */
  function Deactivations(userName: string, keys: seq<AccessKeyData>, skip: bool, answers: seq<string>): Prompted
    decreases |keys|
  {
    if |keys| == 0 then Prompted([], answers)
    else if !DueForDeactivation(keys[0]) then Deactivations(userName, keys[1..], skip, answers)
    else
      var yes := skip || Reply(answers) == "y";
      var rest := Deactivations(userName, keys[1..], skip, if skip then answers else Consume(answers));
      Prompted((if yes then [UpdateAccessKey(userName, keys[0].id, Inactive)] else []) + rest.calls, rest.unread)
  }

  /** The keys due for deactivation, in key order. */
  function DueKeys(keys: seq<AccessKeyData>): seq<AccessKeyData>
  {
    if |keys| == 0 then []
    else (if DueForDeactivation(keys[0]) then [keys[0]] else []) + DueKeys(keys[1..])
  }

  /** The keys of `due` the operator agrees to, the `k`-th key being asked
      about with the `(n + k)`-th answer. */
  function Confirmed(due: seq<AccessKeyData>, answers: seq<string>, n: nat): seq<AccessKeyData>
  {
    if |due| == 0 then []
    else (if AnswerAt(answers, n) == "y" then [due[0]] else []) + Confirmed(due[1..], answers, n + 1)
  }

  /** One deactivation call per key, in order. */
  function DeactivateAll(userName: string, keys: seq<AccessKeyData>): (calls: seq<Call>)
    ensures |calls| == |keys|
    ensures forall j :: 0 <= j < |keys| ==> calls[j] == UpdateAccessKey(userName, keys[j].id, Inactive)
  {
    if |keys| == 0 then [] else [UpdateAccessKey(userName, keys[0].id, Inactive)] + DeactivateAll(userName, keys[1..])
  }

  lemma DropStep(answers: seq<string>, n: nat)
    ensures Reply(Drop(answers, n)) == AnswerAt(answers, n)
    ensures Consume(Drop(answers, n)) == Drop(answers, n + 1)
  {
  }

  /** Without confirmation every due key is deactivated and no answer is read. */
  lemma {:induction false} DeactivationsUnasked(userName: string, keys: seq<AccessKeyData>, answers: seq<string>)
    ensures Deactivations(userName, keys, true, answers) == Prompted(DeactivateAll(userName, DueKeys(keys)), answers)
    decreases |keys|
  {
    if |keys| > 0 {
      DeactivationsUnasked(userName, keys[1..], answers);
    }
  }

  /** With confirmation the operator is asked once per due key, and exactly the
      keys answered "y" are deactivated. */
  lemma {:induction false} DeactivationsAsked(userName: string, keys: seq<AccessKeyData>, answers: seq<string>, n: nat)
    ensures Deactivations(userName, keys, false, Drop(answers, n))
         == Prompted(DeactivateAll(userName, Confirmed(DueKeys(keys), answers, n)), Drop(answers, n + |DueKeys(keys)|))
    decreases |keys|
  {
    if |keys| > 0 {
      var due := DueKeys(keys);
      var asked := Drop(answers, n);
      if DueForDeactivation(keys[0]) {
        DropStep(answers, n);
        DeactivationsAsked(userName, keys[1..], answers, n + 1);
        assert due[1..] == DueKeys(keys[1..]) && |due| == 1 + |DueKeys(keys[1..])|;
        var yes := Confirmed(due[1..], answers, n + 1);
        var rest := Deactivations(userName, keys[1..], false, Drop(answers, n + 1));
        assert rest == Prompted(DeactivateAll(userName, yes), Drop(answers, n + |due|));
        var update := UpdateAccessKey(userName, keys[0].id, Inactive);
        if AnswerAt(answers, n) == "y" {
          assert Deactivations(userName, keys, false, asked) == Prompted([update] + rest.calls, rest.unread);
          assert Confirmed(due, answers, n) == [keys[0]] + yes;
          assert DeactivateAll(userName, [keys[0]] + yes) == [update] + DeactivateAll(userName, yes) by {
            assert ([keys[0]] + yes)[0] == keys[0];
            assert ([keys[0]] + yes)[1..] == yes;
          }
        } else {
          assert Deactivations(userName, keys, false, asked) == Prompted([] + rest.calls, rest.unread);
          assert [] + rest.calls == rest.calls;
          assert Confirmed(due, answers, n) == yes;
        }
      } else {
        assert due == DueKeys(keys[1..]);
        DeactivationsAsked(userName, keys[1..], answers, n);
        assert Deactivations(userName, keys, false, asked) == Deactivations(userName, keys[1..], false, asked);
      }
    }
  }

  /** `keys[i]` is the oldest key, and no earlier key is as old. */
  predicate IsOldest(keys: seq<AccessKeyData>, i: int)
  {
    && 0 <= i < |keys|
    && (forall j :: 0 <= j < |keys| ==> keys[i].createDate <= keys[j].createDate)
    && (forall j :: 0 <= j < i ==> keys[i].createDate < keys[j].createDate)
  }

  /** The key the rotation loop settles on: a strictly earlier creation date
      replaces the current choice, so the first of equally old keys wins. */
  function OldestIndex(keys: seq<AccessKeyData>): (i: nat)
    requires |keys| > 0
    ensures IsOldest(keys, i)
  {
    if |keys| == 1 then 0
    else
      var init := keys[..|keys| - 1];
      var j := OldestIndex(init);
      assert forall x :: 0 <= x < |init| ==> init[x] == keys[x];
      if keys[|keys| - 1].createDate < keys[j].createDate then |keys| - 1 else j
  }

  lemma OldestUnique(keys: seq<AccessKeyData>, i: int, j: int)
    requires IsOldest(keys, i) && IsOldest(keys, j)
    ensures i == j
  {
    var ki, kj := keys[i], keys[j];
  }

  /** The oldest-key search of `RotateAccessKeys`. */
  method FindOldest(keys: seq<AccessKeyData>) returns (oldest: nat)
    requires |keys| > 0
    ensures IsOldest(keys, oldest)
  {
    oldest := 0;
    for i := 0 to |keys|
      invariant oldest < |keys| && oldest <= i
      invariant forall j :: 0 <= j < i ==> keys[oldest].createDate <= keys[j].createDate
      invariant forall j :: 0 <= j < oldest ==> keys[oldest].createDate < keys[j].createDate
    {
      if keys[i].createDate < keys[oldest].createDate {
        oldest := i;
      }
    }
  }

  /** The deactivation pass in closed form. */
  lemma DeactivationPhase(userName: string, keys: seq<AccessKeyData>, skip: bool, answers: seq<string>)
    ensures var due := DueKeys(keys);
      Deactivations(userName, keys, skip, answers)
        == Prompted(DeactivateAll(userName, if skip then due else Confirmed(due, answers, 0)),
                    if skip then answers else Drop(answers, |due|))
  {
    if skip {
      DeactivationsUnasked(userName, keys, answers);
    } else {
      assert Drop(answers, 0) == answers;
      DeactivationsAsked(userName, keys, answers, 0);
    }
  }

  /** The id of the key rotation offers to delete ("" when there is none). */
  function OldestId(keys: seq<AccessKeyData>): string
  {
    if |keys| > 0 then keys[OldestIndex(keys)].id else ""
  }


  /** Calls made, keys issued and answers left by a rotation. */
  datatype Rotated = Rotated(calls: seq<Call>, results: seq<AccessKeyRotationResult>, unread: seq<string>)

  /** The results a create for `userName` yields: the new key when the service
      issues one, nothing when the create fails. */
  function Created(userName: string, create: string -> Option<NewKey>): seq<AccessKeyRotationResult>
  {
    match create(userName)
    case None => []
    case Some(k) => [AccessKeyRotationResult(userName, k.accessKeyId, k.secretAccessKey)]
  }

  /** The oldest key is deleted: the user has two or more keys, and the deletion
      is unattended or the answer after the deactivation prompts is "y". */
  predicate DeletesOldest(user: UserAccessKeyData, skip: bool, answers: seq<string>)
  {
    |user.keys| >= 2 && (skip || AnswerAt(answers, |DueKeys(user.keys)|) == "y")
  }

  /** The delete-and-create step for one user, entered with the prompts the
      deactivation pass left unread. With two or more keys the oldest is
      deleted when the next answer is "y" (or without asking); a declined
      prompt or a failed delete leaves the user without a new key. Otherwise a
      key is created, and reported when the service issues it. */
  function Replacement(user: UserAccessKeyData, skip: bool, unread: seq<string>,
                       deleteOk: string -> bool, create: string -> Option<NewKey>): Rotated
  {
    var name := user.userName;
    var deletes := |user.keys| >= 2 && (skip || Reply(unread) == "y");
    var creates := |user.keys| < 2 || (deletes && deleteOk(OldestId(user.keys)));
    Rotated(
      (if deletes then [DeleteAccessKey(name, OldestId(user.keys))] else [])
        + (if creates then [CreateAccessKey(name)] else []),
      if creates then Created(name, create) else [],
      if skip || |user.keys| < 2 then unread else Consume(unread))
  }

  /** What rotating one user does: the deactivation pass over its keys, then
      the delete-and-create step. `deleteOk` and `create` are the service's
      answers; one prompt is read per due key and one for the deletion. */
  function RotateUser(user: UserAccessKeyData, skip: bool, answers: seq<string>,
                      deleteOk: string -> bool, create: string -> Option<NewKey>): (r: Rotated)
    ensures |r.results| <= 1
  {
    var d := Deactivations(user.userName, user.keys, skip, answers);
    var r := Replacement(user, skip, d.unread, deleteOk, create);
    Rotated(d.calls + r.calls, r.results, r.unread)
  }

  /** Concatenation is associative. */
  lemma ConcatAssoc<T>(a: seq<T>, b: seq<T>, c: seq<T>)
    ensures a + (b + c) == a + b + c
  {
  }

  /** Rotating one user in closed form. The due keys answered "y" (all of
      them without confirmation) are deactivated, in key order. With two or
      more keys, the oldest is deleted when the answer after the deactivation
      prompts is "y"; the key is created unless that prompt was declined or
      the delete failed. */
  lemma RotateUserClosed(user: UserAccessKeyData, skip: bool, answers: seq<string>,
                         deleteOk: string -> bool, create: string -> Option<NewKey>)
    ensures var name := user.userName;
      var due := DueKeys(user.keys);
      var deletes := DeletesOldest(user, skip, answers);
      var creates := |user.keys| < 2 || (deletes && deleteOk(OldestId(user.keys)));
      RotateUser(user, skip, answers, deleteOk, create)
        == Rotated(
             DeactivateAll(name, if skip then due else Confirmed(due, answers, 0))
               + (if deletes then [DeleteAccessKey(name, OldestId(user.keys))] else [])
               + (if creates then [CreateAccessKey(name)] else []),
             if creates then Created(name, create) else [],
             if skip then answers else Drop(answers, |due| + (if |user.keys| >= 2 then 1 else 0)))
  {
    var name := user.userName;
    var due := DueKeys(user.keys);
    var deletes := DeletesOldest(user, skip, answers);
    var creates := |user.keys| < 2 || (deletes && deleteOk(OldestId(user.keys)));
    var deactivated := DeactivateAll(name, if skip then due else Confirmed(due, answers, 0));
    var del: seq<Call> := if deletes then [DeleteAccessKey(name, OldestId(user.keys))] else [];
    var cre: seq<Call> := if creates then [CreateAccessKey(name)] else [];
    var unread := if skip then answers else Drop(answers, |due|);
    DeactivationPhase(name, user.keys, skip, answers);
    assert Deactivations(name, user.keys, skip, answers) == Prompted(deactivated, unread);
    var r := Replacement(user, skip, unread, deleteOk, create);
    ReplacementAfterPrompts(user, skip, answers, deleteOk, create);
    assert r.calls == del + cre;
    assert RotateUser(user, skip, answers, deleteOk, create) == Rotated(deactivated + r.calls, r.results, r.unread);
    ConcatAssoc(deactivated, del, cre);
  }

  /** The delete-and-create step, entered after the deactivation prompts,
      in terms of the answers given to the whole rotation of the user. */
  lemma ReplacementAfterPrompts(user: UserAccessKeyData, skip: bool, answers: seq<string>,
                                deleteOk: string -> bool, create: string -> Option<NewKey>)
    ensures var name := user.userName;
      var due := DueKeys(user.keys);
      var deletes := DeletesOldest(user, skip, answers);
      var creates := |user.keys| < 2 || (deletes && deleteOk(OldestId(user.keys)));
      Replacement(user, skip, if skip then answers else Drop(answers, |due|), deleteOk, create)
        == Rotated(
             (if deletes then [DeleteAccessKey(name, OldestId(user.keys))] else [])
               + (if creates then [CreateAccessKey(name)] else []),
             if creates then Created(name, create) else [],
             if skip then answers else Drop(answers, |due| + (if |user.keys| >= 2 then 1 else 0)))
  {
    if !skip {
      DropStep(answers, |DueKeys(user.keys)|);
    }
  }

  /** The split of `RotateUser` as the rotation loop sees one access-key item. */
  lemma FirstItemSplit(item: UserData, skip: bool, answers: seq<string>,
                       deleteOk: string -> bool, create: string -> Option<NewKey>)
    requires item.AccessKeys?
    ensures var d := Deactivations(item.data.userName, item.data.keys, skip, answers);
      FirstItem(item, skip, answers, deleteOk, create)
        == var r := Replacement(item.data, skip, d.unread, deleteOk, create);
           Rotated(d.calls + r.calls, r.results, r.unread)
  {
  }

  /** The outcome of a declined deletion prompt. */
  lemma RotateUserDeclined(user: UserAccessKeyData, answers: seq<string>,
                           deleteOk: string -> bool, create: string -> Option<NewKey>)
    requires |user.keys| >= 2 && AnswerAt(answers, |DueKeys(user.keys)|) != "y"
    ensures var due := DueKeys(user.keys);
      RotateUser(user, false, answers, deleteOk, create)
        == Rotated(DeactivateAll(user.userName, Confirmed(due, answers, 0)), [], Drop(answers, |due| + 1))
  {
    RotateUserClosed(user, false, answers, deleteOk, create);
    var deactivated := DeactivateAll(user.userName, Confirmed(DueKeys(user.keys), answers, 0));
    assert deactivated + [] + [] == deactivated;
  }

  /** The outcome of a confirmed deletion the service refuses. */
  lemma RotateUserDeleteFailed(user: UserAccessKeyData, skip: bool, answers: seq<string>,
                               deleteOk: string -> bool, create: string -> Option<NewKey>)
    requires DeletesOldest(user, skip, answers) && !deleteOk(OldestId(user.keys))
    ensures var due := DueKeys(user.keys);
      RotateUser(user, skip, answers, deleteOk, create)
        == Rotated(DeactivateAll(user.userName, if skip then due else Confirmed(due, answers, 0))
                     + [DeleteAccessKey(user.userName, OldestId(user.keys))],
                   [],
                   if skip then answers else Drop(answers, |due| + 1))
  {
    var due := DueKeys(user.keys);
    DeactivationPhase(user.userName, user.keys, skip, answers);
    ReplacementAfterPrompts(user, skip, answers, deleteOk, create);
    var r := Replacement(user, skip, if skip then answers else Drop(answers, |due|), deleteOk, create);
    assert r.calls == [DeleteAccessKey(user.userName, OldestId(user.keys))];
  }

  /** The outcome when a create is attempted. */
  lemma RotateUserCreates(user: UserAccessKeyData, skip: bool, answers: seq<string>,
                          deleteOk: string -> bool, create: string -> Option<NewKey>)
    requires |user.keys| < 2 || (DeletesOldest(user, skip, answers) && deleteOk(OldestId(user.keys)))
    ensures var due := DueKeys(user.keys);
      RotateUser(user, skip, answers, deleteOk, create)
        == Rotated(DeactivateAll(user.userName, if skip then due else Confirmed(due, answers, 0))
                     + (if |user.keys| >= 2 then [DeleteAccessKey(user.userName, OldestId(user.keys))] else [])
                     + [CreateAccessKey(user.userName)],
                   Created(user.userName, create),
                   if skip then answers else Drop(answers, |due| + (if |user.keys| >= 2 then 1 else 0)))
  {
    RotateUserClosed(user, skip, answers, deleteOk, create);
  }

  /** One item of the rotation loop: only access-key records are rotated. */
  function FirstItem(item: UserData, skip: bool, answers: seq<string>,
                     deleteOk: string -> bool, create: string -> Option<NewKey>): Rotated
  {
    if item.AccessKeys? then RotateUser(item.data, skip, answers, deleteOk, create)
    else Rotated([], [], answers)
  }

  /** A loop over `items` that handles each with `step`, handing on the
      answers the item left unread; calls and results accumulate in order. */
  function RunItems(items: seq<UserData>, answers: seq<string>, step: (UserData, seq<string>) -> Rotated): Rotated
    decreases |items|
  {
    if |items| == 0 then Rotated([], [], answers)
    else
      var first := step(items[0], answers);
      var rest := RunItems(items[1..], first.unread, step);
      Rotated(first.calls + rest.calls, first.results + rest.results, rest.unread)
  }

  /** Rotation of every item in order; items that are not access-key records
      are skipped. */
  function Rotation(items: seq<UserData>, skip: bool, answers: seq<string>,
                    deleteOk: string -> bool, create: string -> Option<NewKey>): Rotated
  {
    RunItems(items, answers, ItemStep(skip, deleteOk, create))
  }

  /** `FirstItem` as the step of the rotation loop. */
  function ItemStep(skip: bool, deleteOk: string -> bool, create: string -> Option<NewKey>): (UserData, seq<string>) -> Rotated
  {
    (item, unread) => FirstItem(item, skip, unread, deleteOk, create)
  }

  /** One more item extends the loop: it is handled with the answers the
      earlier items left unread. */
  lemma {:induction false} RunItemsSnoc(items: seq<UserData>, i: nat, answers: seq<string>,
                                        step: (UserData, seq<string>) -> Rotated)
    requires i < |items|
    ensures var p := RunItems(items[..i], answers, step);
      var last := step(items[i], p.unread);
      RunItems(items[..i + 1], answers, step)
        == Rotated(p.calls + last.calls, p.results + last.results, last.unread)
    decreases i
  {
    var first := step(items[0], answers);
    if i == 0 {
      assert items[..1][1..] == [];
      assert first.calls + [] == [] + first.calls && first.results + [] == [] + first.results;
    } else {
      var tail := items[1..];
      assert items[..i + 1][1..] == tail[..i];
      assert items[..i][1..] == tail[..i - 1];
      assert tail[i - 1] == items[i];
      RunItemsSnoc(tail, i - 1, first.unread, step);
      var p' := RunItems(tail[..i - 1], first.unread, step);
      var last := step(items[i], p'.unread);
      assert first.calls + (p'.calls + last.calls) == (first.calls + p'.calls) + last.calls;
      assert first.results + (p'.results + last.results) == (first.results + p'.results) + last.results;
    }
  }

  /** One more item extends a rotation: it is rotated with the answers the
      earlier items left unread. */
  lemma RotationSnoc(items: seq<UserData>, i: nat, skip: bool, answers: seq<string>,
                     deleteOk: string -> bool, create: string -> Option<NewKey>)
    requires i < |items|
    ensures var p := Rotation(items[..i], skip, answers, deleteOk, create);
      var step := FirstItem(items[i], skip, p.unread, deleteOk, create);
      Rotation(items[..i + 1], skip, answers, deleteOk, create)
        == Rotated(p.calls + step.calls, p.results + step.results, step.unread)
  {
    RunItemsSnoc(items, i, answers, ItemStep(skip, deleteOk, create));
  }

  /** The IAM client as rotation sees it: the mutating calls it has received,
      and how the service answers deletes (by key id) and creates (by user). */
  class IamClient {
    var calls: seq<Call>
    const deleteSucceeds: string -> bool
    const createAccessKey: string -> Option<NewKey>

    constructor (deleteSucceeds: string -> bool, createAccessKey: string -> Option<NewKey>)
      ensures calls == []
      ensures this.deleteSucceeds == deleteSucceeds && this.createAccessKey == createAccessKey
    {
      calls := [];
      this.deleteSucceeds := deleteSucceeds;
      this.createAccessKey := createAccessKey;
    }

    /** `UserWrapper.RotateAccessKeys`; `answers` are the operator's replies
        to the prompts, in order, and `unread` those never asked for. */
    method RotateAccessKeys(keys: seq<UserData>, skipConfirmation: bool, answers: seq<string>)
      returns (results: seq<AccessKeyRotationResult>, unread: seq<string>)
      modifies this
      ensures var r := Rotation(keys, skipConfirmation, answers, deleteSucceeds, createAccessKey);
        calls == old(calls) + r.calls && results == r.results && unread == r.unread
    {
      results := [];
      unread := answers;
      var i := 0;
      while i < |keys|
        invariant 0 <= i <= |keys|
        invariant var p := Rotation(keys[..i], skipConfirmation, answers, deleteSucceeds, createAccessKey);
          calls == old(calls) + p.calls && results == p.results && unread == p.unread
      {
        ghost var p := Rotation(keys[..i], skipConfirmation, answers, deleteSucceeds, createAccessKey);
        ghost var step := FirstItem(keys[i], skipConfirmation, unread, deleteSucceeds, createAccessKey);
        RotationSnoc(keys, i, skipConfirmation, answers, deleteSucceeds, createAccessKey);
        var issued, left := RotateItem(keys[i], skipConfirmation, unread);
        assert calls == old(calls) + (p.calls + step.calls);
        results := results + issued;
        unread := left;
        i := i + 1;
      }
      assert keys[..|keys|] == keys;
    }

    /** One pass of the rotation loop: anything but an access-key record is
        skipped with a warning. */
    method RotateItem(item: UserData, skip: bool, answers: seq<string>)
      returns (issued: seq<AccessKeyRotationResult>, unread: seq<string>)
      modifies this
      ensures var r := FirstItem(item, skip, answers, deleteSucceeds, createAccessKey);
        calls == old(calls) + r.calls && issued == r.results && unread == r.unread
    {
      if item.AccessKeys? {
        ghost var before := calls;
        issued, unread := RotateUserKeys(item.data, skip, answers);
        FirstItemSplit(item, skip, answers, deleteSucceeds, createAccessKey);
        ghost var d := Deactivations(item.data.userName, item.data.keys, skip, answers);
        ghost var r := Replacement(item.data, skip, d.unread, deleteSucceeds, createAccessKey).calls;
        assert calls == before + (d.calls + r);
      } else {
        issued, unread := [], answers;
      }
    }

    /** The body of the rotation loop for one user: the deactivation pass,
        then the replacement of the oldest key. */
    method RotateUserKeys(user: UserAccessKeyData, skip: bool, answers: seq<string>)
      returns (issued: seq<AccessKeyRotationResult>, unread: seq<string>)
      modifies this
      ensures var d := Deactivations(user.userName, user.keys, skip, answers);
        var r := Replacement(user, skip, d.unread, deleteSucceeds, createAccessKey);
        calls == old(calls) + d.calls + r.calls && issued == r.results && unread == r.unread
    {
      unread := DeactivateExpired(user, skip, answers);
      issued, unread := ReplaceOldest(user, skip, unread);
    }

    /** The delete-and-create part of the rotation loop for one user, entered
        with the prompts the deactivation pass left unread. */
    method ReplaceOldest(user: UserAccessKeyData, skip: bool, unreadBefore: seq<string>)
      returns (issued: seq<AccessKeyRotationResult>, unread: seq<string>)
      modifies this
      ensures var r := Replacement(user, skip, unreadBefore, deleteSucceeds, createAccessKey);
        calls == old(calls) + r.calls && issued == r.results && unread == r.unread
    {
      unread := unreadBefore;
      issued := [];
      if |user.keys| >= 2 {
        var oldestIndex := FindOldest(user.keys);
        OldestUnique(user.keys, oldestIndex, OldestIndex(user.keys));
        var oldest := user.keys[oldestIndex];
        if !skip {
          var response := Reply(unread);
          unread := Consume(unread);
          if response != "y" {
            return;
          }
        }
        calls := calls + [DeleteAccessKey(user.userName, oldest.id)];
        if !deleteSucceeds(oldest.id) {
          return;
        }
      }
      calls := calls + [CreateAccessKey(user.userName)];
      var created := createAccessKey(user.userName);
      if created.Some? {
        issued := [AccessKeyRotationResult(user.userName, created.value.accessKeyId, created.value.secretAccessKey)];
      }
    }

    /** The deactivation pass of the rotation loop for one user. */
    method DeactivateExpired(user: UserAccessKeyData, skip: bool, answers: seq<string>) returns (unread: seq<string>)
      modifies this
      ensures var d := Deactivations(user.userName, user.keys, skip, answers);
        calls == old(calls) + d.calls && unread == d.unread
    {
      unread := answers;
      ghost var done: seq<Call> := [];
      var i := 0;
      while i < |user.keys|
        invariant 0 <= i <= |user.keys|
        invariant calls == old(calls) + done
        invariant var rest := Deactivations(user.userName, user.keys[i..], skip, unread);
          Deactivations(user.userName, user.keys, skip, answers) == Prompted(done + rest.calls, rest.unread)
      {
        var key := user.keys[i];
        assert user.keys[i..][1..] == user.keys[i + 1..];
        ghost var unreadBefore := unread;
        if key.isExpired && key.keyStatus == Active {
          var shouldDeactivate := skip;
          if !skip {
            var response := Reply(unread);
            unread := Consume(unread);
            if response == "y" {
              shouldDeactivate := true;
            }
          }
          ghost var rest := Deactivations(user.userName, user.keys[i + 1..], skip, unread);
          if shouldDeactivate {
            calls := calls + [UpdateAccessKey(user.userName, key.id, Inactive)];
            assert (done + [UpdateAccessKey(user.userName, key.id, Inactive)]) + rest.calls
                == done + ([UpdateAccessKey(user.userName, key.id, Inactive)] + rest.calls);
            done := done + [UpdateAccessKey(user.userName, key.id, Inactive)];
          } else {
            assert [] + rest.calls == rest.calls;
          }
        }
        i := i + 1;
      }
    }
  }


  // ---------------------------------------------------------------------------
  // Properties of rotation
  // ---------------------------------------------------------------------------

  lemma {:induction false} DueKeysMembers(keys: seq<AccessKeyData>)
    ensures forall k :: k in DueKeys(keys) ==> k in keys && DueForDeactivation(k)
    ensures forall k :: k in keys && DueForDeactivation(k) ==> k in DueKeys(keys)
    decreases |keys|
  {
    if |keys| > 0 {
      DueKeysMembers(keys[1..]);
    }
  }

  lemma {:induction false} ConfirmedMembers(due: seq<AccessKeyData>, answers: seq<string>, n: nat)
    ensures forall k :: k in Confirmed(due, answers, n) ==> k in due
    decreases |due|
  {
    if |due| > 0 {
      ConfirmedMembers(due[1..], answers, n + 1);
    }
  }

  /** A declined deletion ends the user's rotation after its deactivations: no
      delete and no create; a user with no due key sees no call at all. */
  lemma DeclinedDeletionIssuesNothing(user: UserAccessKeyData, answers: seq<string>,
                                      deleteOk: string -> bool, create: string -> Option<NewKey>)
    requires |user.keys| >= 2 && AnswerAt(answers, |DueKeys(user.keys)|) != "y"
    ensures var r := RotateUser(user, false, answers, deleteOk, create);
      && r.results == []
      && (forall c :: c in r.calls ==> c.UpdateAccessKey?)
      && (DueKeys(user.keys) == [] ==> r.calls == [])
  {
    RotateUserDeclined(user, answers, deleteOk, create);
  }

  /** A failed delete also ends the user's rotation: the delete is the last call
      and no key is created. */
  lemma FailedDeletionIssuesNothing(user: UserAccessKeyData, skip: bool, answers: seq<string>,
                                    deleteOk: string -> bool, create: string -> Option<NewKey>)
    requires DeletesOldest(user, skip, answers) && !deleteOk(OldestId(user.keys))
    ensures var r := RotateUser(user, skip, answers, deleteOk, create);
      && r.results == []
      && CreateAccessKey(user.userName) !in r.calls
      && |r.calls| > 0 && r.calls[|r.calls| - 1] == DeleteAccessKey(user.userName, OldestId(user.keys))
  {
    RotateUserDeleteFailed(user, skip, answers, deleteOk, create);
  }

  /** A user with one key that is not due gets exactly one create and no other
      call, and no prompt is read. */
  lemma SingleKeyRotation(user: UserAccessKeyData, skip: bool, answers: seq<string>,
                          deleteOk: string -> bool, create: string -> Option<NewKey>)
    requires |user.keys| == 1 && !DueForDeactivation(user.keys[0])
    ensures var r := RotateUser(user, skip, answers, deleteOk, create);
      && r.calls == [CreateAccessKey(user.userName)]
      && r.unread == answers
      && (create(user.userName).Some? <==> |r.results| == 1)
  {
    RotateUserClosed(user, skip, answers, deleteOk, create);
    assert DueKeys(user.keys) == DueKeys(user.keys[1..]) == [];
    assert Drop(answers, 0) == answers;
  }

  /** Rotation touches only the user's own keys: every deactivation names one of
      its expired active keys, and a delete names its oldest key. */
  lemma RotateUserTouchesOnlyDueAndOldest(user: UserAccessKeyData, skip: bool, answers: seq<string>,
                                          deleteOk: string -> bool, create: string -> Option<NewKey>)
    ensures var r := RotateUser(user, skip, answers, deleteOk, create);
      forall c :: c in r.calls ==>
        && c.userName == user.userName
        && (c.UpdateAccessKey? ==>
              c.status == Inactive && exists k :: k in user.keys && DueForDeactivation(k) && k.id == c.accessKeyId)
        && (c.DeleteAccessKey? ==>
              |user.keys| >= 2 && IsOldest(user.keys, OldestIndex(user.keys))
              && c.accessKeyId == user.keys[OldestIndex(user.keys)].id)
  {
    RotateUserClosed(user, skip, answers, deleteOk, create);
    var due := DueKeys(user.keys);
    DueKeysMembers(user.keys);
    ConfirmedMembers(due, answers, 0);
    DeactivateAllNamesDue(user.userName, user.keys, if skip then due else Confirmed(due, answers, 0));
  }

  /** Deactivating keys that are all due names only those keys. */
  lemma DeactivateAllNamesDue(userName: string, keys: seq<AccessKeyData>, deactivated: seq<AccessKeyData>)
    requires forall k :: k in deactivated ==> k in keys && DueForDeactivation(k)
    ensures forall c :: c in DeactivateAll(userName, deactivated) ==>
      && c.UpdateAccessKey? && c.userName == userName && c.status == Inactive
      && exists k :: k in keys && DueForDeactivation(k) && k.id == c.accessKeyId
  {
    var calls := DeactivateAll(userName, deactivated);
    forall c | c in calls
      ensures c.UpdateAccessKey? && c.userName == userName && c.status == Inactive
      ensures exists k :: k in keys && DueForDeactivation(k) && k.id == c.accessKeyId
    {
      var j :| 0 <= j < |calls| && calls[j] == c;
      assert deactivated[j] in deactivated;
    }
  }

  /** The results the calls imply: one per create the service honours, in order. */
  function Issued(calls: seq<Call>, create: string -> Option<NewKey>): seq<AccessKeyRotationResult>
  {
    if |calls| == 0 then []
    else (if calls[0].CreateAccessKey? then Created(calls[0].userName, create) else []) + Issued(calls[1..], create)
  }

  lemma {:induction false} IssuedAppend(a: seq<Call>, b: seq<Call>, create: string -> Option<NewKey>)
    ensures Issued(a + b, create) == Issued(a, create) + Issued(b, create)
    decreases |a|
  {
    if |a| > 0 {
      assert (a + b)[0] == a[0];
      assert (a + b)[1..] == a[1..] + b;
      IssuedAppend(a[1..], b, create);
    } else {
      assert a + b == b;
    }
  }

  lemma {:induction false} IssuedDeactivations(userName: string, keys: seq<AccessKeyData>, create: string -> Option<NewKey>)
    ensures Issued(DeactivateAll(userName, keys), create) == []
    decreases |keys|
  {
    if |keys| > 0 {
      IssuedDeactivations(userName, keys[1..], create);
    }
  }

  /** Rotation reports one result per successful create and nothing else, in
      the order the creates were made. */
  lemma {:induction false} RotationResultsAreCreatedKeys(items: seq<UserData>, skip: bool, answers: seq<string>,
                                                         deleteOk: string -> bool, create: string -> Option<NewKey>)
    ensures var r := Rotation(items, skip, answers, deleteOk, create);
      r.results == Issued(r.calls, create)
    decreases |items|
  {
    if |items| > 0 {
      var first := FirstItem(items[0], skip, answers, deleteOk, create);
      var rest := Rotation(items[1..], skip, first.unread, deleteOk, create);
      RotationResultsAreCreatedKeys(items[1..], skip, first.unread, deleteOk, create);
      IssuedAppend(first.calls, rest.calls, create);
      if items[0].AccessKeys? {
        UserResultsAreCreatedKeys(items[0].data, skip, answers, deleteOk, create);
      }
    }
  }

  lemma UserResultsAreCreatedKeys(user: UserAccessKeyData, skip: bool, answers: seq<string>,
                                  deleteOk: string -> bool, create: string -> Option<NewKey>)
    ensures var r := RotateUser(user, skip, answers, deleteOk, create);
      r.results == Issued(r.calls, create)
  {
    RotateUserClosed(user, skip, answers, deleteOk, create);
    var due := DueKeys(user.keys);
    var deactivated := DeactivateAll(user.userName, if skip then due else Confirmed(due, answers, 0));
    var deletes := DeletesOldest(user, skip, answers);
    var creates := |user.keys| < 2 || (deletes && deleteOk(OldestId(user.keys)));
    var del: seq<Call> := if deletes then [DeleteAccessKey(user.userName, OldestId(user.keys))] else [];
    var cre: seq<Call> := if creates then [CreateAccessKey(user.userName)] else [];
    IssuedDeactivations(user.userName, if skip then due else Confirmed(due, answers, 0), create);
    IssuedAppend(deactivated, del, create);
    IssuedAppend(deactivated + del, cre, create);
    assert Issued(del, create) == [];
  }

  /** The access-key records among the items, in order. */
  function KeyItems(items: seq<UserData>): seq<UserData>
  {
    if |items| == 0 then []
    else (if items[0].AccessKeys? then [items[0]] else []) + KeyItems(items[1..])
  }

  /** Each access-key record yields at most one new key; other items none. */
  lemma {:induction false} RotationIssuesAtMostOnePerKeyItem(items: seq<UserData>, skip: bool, answers: seq<string>,
                                                             deleteOk: string -> bool, create: string -> Option<NewKey>)
    ensures |Rotation(items, skip, answers, deleteOk, create).results| <= |KeyItems(items)|
    decreases |items|
  {
    if |items| > 0 {
      var first := FirstItem(items[0], skip, answers, deleteOk, create);
      RotationIssuesAtMostOnePerKeyItem(items[1..], skip, first.unread, deleteOk, create);
    }
  }

  /** Items that are not access-key records change nothing. */
  lemma {:induction false} RotationSkipsOtherItems(items: seq<UserData>, skip: bool, answers: seq<string>,
                                                   deleteOk: string -> bool, create: string -> Option<NewKey>)
    ensures Rotation(items, skip, answers, deleteOk, create) == Rotation(KeyItems(items), skip, answers, deleteOk, create)
    decreases |items|
  {
    if |items| > 0 {
      var first := FirstItem(items[0], skip, answers, deleteOk, create);
      RotationSkipsOtherItems(items[1..], skip, first.unread, deleteOk, create);
      var rest := Rotation(items[1..], skip, first.unread, deleteOk, create);
      if items[0].AccessKeys? {
        assert KeyItems(items)[0] == items[0];
        assert KeyItems(items)[1..] == KeyItems(items[1..]);
      } else {
        assert KeyItems(items) == KeyItems(items[1..]);
        assert [] + rest.calls == rest.calls && [] + rest.results == rest.results;
      }
    }
  }

  /** The user names of the access-key records among the items. */
  function KeyUserNames(items: seq<UserData>): set<string>
  {
    if |items| == 0 then {}
    else (if items[0].AccessKeys? then {items[0].data.userName} else {}) + KeyUserNames(items[1..])
  }

  /** Every call names the user of some access-key record among the items. */
  lemma {:induction false} RotationCallsNameListedUsers(items: seq<UserData>, skip: bool, answers: seq<string>,
                                                        deleteOk: string -> bool, create: string -> Option<NewKey>)
    ensures forall c :: c in Rotation(items, skip, answers, deleteOk, create).calls ==> c.userName in KeyUserNames(items)
    decreases |items|
  {
    if |items| > 0 {
      var first := FirstItem(items[0], skip, answers, deleteOk, create);
      RotationCallsNameListedUsers(items[1..], skip, first.unread, deleteOk, create);
      if items[0].AccessKeys? {
        RotateUserTouchesOnlyDueAndOldest(items[0].data, skip, answers, deleteOk, create);
      }
    }
  }
}
