/**
 * The older aggregator, `GetUserAccessKey` of pkg/providers/aws/helper.go. It
 * differs from the one in keys.go in what it keeps: a failed fetch is logged
 * (the log is not modelled here) and the user dropped, and without the
 * expired-only filter every fetched record is kept, including records with
 * no keys.
 */
module Helper {
  import opened Wrappers
  import opened Common
  import Users
  import Keys

  /** The fan-out, in user order: a failed fetch is dropped; with the
      expired-only filter a record without keys is dropped too. The input
      struct of helper.go has the same fields as `Keys.GetWrapperInputs`. */
  function Gathered(api: Directory, clock: Clock, users: seq<User>, input: Keys.GetWrapperInputs): (r: seq<Keys.UserAccessKeyData>)
    ensures |r| <= |users|
    ensures input.expired ==> forall i :: 0 <= i < |r| ==> |r[i].keys| > 0
  {
    if |users| == 0 then []
    else
      var kept := Gathered(api, clock, users[..|users| - 1], input);
      match Keys.ListAccessKeysSpec(api, clock, users[|users| - 1].userName, input.timeZone, input.expired, input.age)
      case Failure(_) => kept
      case Success(record) => if !input.expired || |record.keys| > 0 then kept + [record] else kept
  }

  /** `GetUserAccessKey` of helper.go: a failed listing is returned as the
      error; otherwise the gathered records, sorted ascending by user name, and
      no error. `sent` are the listing requests. */
  method GetUserAccessKey(api: Directory, clock: Clock, input: Keys.GetWrapperInputs)
    returns (r: Result<seq<Keys.UserAccessKeyData>, Error>, sent: seq<UsersRequest>)
    requires input.userName != "" || Users.Serves(api.pages, input.maxUsers)
    ensures sent == Keys.WorkingSet(api, input).sent
    ensures Keys.WorkingSet(api, input).result.Failure? ==> r == Failure(Keys.WorkingSet(api, input).result.error)
    ensures Keys.WorkingSet(api, input).result.Success? ==>
      var kept := Gathered(api, clock, Keys.WorkingSet(api, input).result.value, input);
      r.Success? && Keys.SortedByName(r.value) && multiset(r.value) == multiset(kept)
  {
    var users: seq<User>;
    if input.userName != "" {
      users := [User(input.userName)];
      sent := [];
    } else {
      var listed;
      listed, sent := Users.ListUsers(api, input.maxUsers);
      if listed.Failure? {
        return Failure(listed.error), sent;
      }
      users := listed.value;
    }
    var kept: seq<Keys.UserAccessKeyData> := [];
    var i := 0;
    while i < |users|
      invariant 0 <= i <= |users|
      invariant kept == Gathered(api, clock, users[..i], input)
    {
      var keyData := Keys.ListAccessKeys(api, clock, users[i].userName, input.timeZone, input.expired, input.age);
      assert users[..i + 1][..i] == users[..i];
      if keyData.Success? {
        if input.expired {
          if |keyData.value.keys| > 0 {
            kept := kept + [keyData.value];
          }
        } else {
          kept := kept + [keyData.value];
        }
      }
      i := i + 1;
    }
    assert users[..i] == users;
    var a := new Keys.UserAccessKeyData[|kept|](j requires 0 <= j < |kept| => kept[j]);
    assert a[..] == kept;
    Keys.SortByUserName(a);
    r := Success(a[..]);
  }

  /** A record is gathered exactly when some user's fetch returned it, and,
      under the expired-only filter, it holds keys. */
  lemma {:induction false} GatheredMembers(api: Directory, clock: Clock, users: seq<User>, input: Keys.GetWrapperInputs,
                                           record: Keys.UserAccessKeyData)
    ensures record in Gathered(api, clock, users, input) <==>
      exists i :: 0 <= i < |users| && (!input.expired || |record.keys| > 0)
        && Keys.ListAccessKeysSpec(api, clock, users[i].userName, input.timeZone, input.expired, input.age) == Success(record)
    decreases |users|
  {
    if |users| > 0 {
      var init := users[..|users| - 1];
      GatheredMembers(api, clock, init, input, record);
      assert forall i :: 0 <= i < |init| ==> init[i] == users[i];
      if exists i :: 0 <= i < |users| && (!input.expired || |record.keys| > 0)
           && Keys.ListAccessKeysSpec(api, clock, users[i].userName, input.timeZone, input.expired, input.age) == Success(record) {
        var i :| 0 <= i < |users| && (!input.expired || |record.keys| > 0)
           && Keys.ListAccessKeysSpec(api, clock, users[i].userName, input.timeZone, input.expired, input.age) == Success(record);
        if i < |init| {
          assert init[i] == users[i];
        }
      }
    }
  }

  /** Without the expired-only filter and with no failed fetch, there is one
      record per user, in user order, whatever it holds. */
  lemma {:induction false} GatheredEveryUser(api: Directory, clock: Clock, users: seq<User>, input: Keys.GetWrapperInputs)
    requires !input.expired
    requires forall i :: 0 <= i < |users| ==>
      Keys.ListAccessKeysSpec(api, clock, users[i].userName, input.timeZone, input.expired, input.age).Success?
    ensures var kept := Gathered(api, clock, users, input);
      |kept| == |users|
      && forall i :: 0 <= i < |users| ==>
           Keys.ListAccessKeysSpec(api, clock, users[i].userName, input.timeZone, input.expired, input.age) == Success(kept[i])
    decreases |users|
  {
    if |users| > 0 {
      var init := users[..|users| - 1];
      assert forall i :: 0 <= i < |init| ==> init[i] == users[i];
      GatheredEveryUser(api, clock, init, input);
    }
  }

  /** The records with keys, in order. */
  function WithKeys(records: seq<Keys.UserAccessKeyData>): seq<Keys.UserAccessKeyData>
  {
    if |records| == 0 then []
    else WithKeys(records[..|records| - 1]) + (if |records[|records| - 1].keys| > 0 then [records[|records| - 1]] else [])
  }

  lemma {:induction false} WithKeysAppend(records: seq<Keys.UserAccessKeyData>, record: Keys.UserAccessKeyData)
    ensures WithKeys(records + [record]) == WithKeys(records) + (if |record.keys| > 0 then [record] else [])
  {
    assert (records + [record])[..|records|] == records;
  }

  /** The two aggregators agree on the records that hold keys: the keys.go
      version keeps exactly those of the helper.go version. */
  lemma {:induction false} CollectKeepsGatheredWithKeys(api: Directory, clock: Clock, users: seq<User>, input: Keys.GetWrapperInputs)
    ensures Keys.Collect(api, clock, users, input).kept == WithKeys(Gathered(api, clock, users, input))
    decreases |users|
  {
    if |users| > 0 {
      var init := users[..|users| - 1];
      CollectKeepsGatheredWithKeys(api, clock, init, input);
      var kept := Gathered(api, clock, init, input);
      match Keys.ListAccessKeysSpec(api, clock, users[|users| - 1].userName, input.timeZone, input.expired, input.age)
      case Failure(_) =>
      case Success(record) =>
        WithKeysAppend(kept, record);
    }
  }

  /** Under the expired-only filter the two aggregators keep the same records. */
  lemma {:induction false} ExpiredOnlyAggregatorsAgree(api: Directory, clock: Clock, users: seq<User>, input: Keys.GetWrapperInputs)
    requires input.expired
    ensures Keys.Collect(api, clock, users, input).kept == Gathered(api, clock, users, input)
  {
    CollectKeepsGatheredWithKeys(api, clock, users, input);
    AllHaveKeys(api, clock, users, input);
  }

  lemma {:induction false} AllHaveKeys(api: Directory, clock: Clock, users: seq<User>, input: Keys.GetWrapperInputs)
    requires input.expired
    ensures WithKeys(Gathered(api, clock, users, input)) == Gathered(api, clock, users, input)
    decreases |users|
  {
    if |users| > 0 {
      var init := users[..|users| - 1];
      AllHaveKeys(api, clock, init, input);
      var kept := Gathered(api, clock, init, input);
      match Keys.ListAccessKeysSpec(api, clock, users[|users| - 1].userName, input.timeZone, input.expired, input.age)
      case Failure(_) =>
      case Success(record) =>
        if |record.keys| > 0 {
          WithKeysAppend(kept, record);
        }
    }
  }
}
