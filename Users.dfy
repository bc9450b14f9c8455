/**
 * pkg/providers/aws/users.go: listing users page by page, looking one user up,
 * and the older per-user access-key listing.
 */
module Users {
  import opened Wrappers
  import opened Common

  /** The command line's default `--quantity`; only this value pages on. */
  const DefaultMaxUsers: int := 50

  // ---------------------------------------------------------------------------
  // ListUsers
  // ---------------------------------------------------------------------------

  /** The service answers every request the listing loop makes: when the loop
      would page on after the last response, that response is not truncated. */
  predicate Serves(pages: seq<Result<UsersPage, Error>>, maxUsers: int)
  {
    && |pages| > 0
    && (maxUsers == DefaultMaxUsers ==>
          !(pages[|pages| - 1].Success? && pages[|pages| - 1].value.isTruncated))
  }

  /** What a listing returns, together with the requests it sent. */
  datatype Listing = Listing(result: Result<seq<User>, Error>, sent: seq<UsersRequest>)

  /** `users` already collected and `sent` already issued, followed by `run`. */
  function Prepend(users: seq<User>, sent: seq<UsersRequest>, run: Listing): Listing
  {
    Listing(
      match run.result
      case Success(more) => Success(users + more)
      case Failure(e) => Failure(e),
      sent + run.sent)
  }

  /** Prepending nothing leaves a listing as it is. */
  lemma PrependNothing(run: Listing)
    ensures Prepend([], [], run) == run
  {
    assert run.sent == [] + run.sent;
    assert run.result.Success? ==> run.result.value == [] + run.result.value;
  }

  /** Prepending twice is prepending the two parts joined. */
  lemma PrependTwice(users: seq<User>, sent: seq<UsersRequest>, more: seq<User>, next: seq<UsersRequest>, run: Listing)
    ensures Prepend(users, sent, Prepend(more, next, run)) == Prepend(users + more, sent + next, run)
  {
    assert sent + (next + run.sent) == sent + next + run.sent;
    assert run.result.Success? ==> users + (more + run.result.value) == users + more + run.result.value;
  }

  /** The marker the next request carries: the response's when it has one. */
  function NextMarker(current: Option<string>, page: Result<UsersPage, Error>): Option<string>
  {
    if page.Success? && page.value.marker.Some? then page.value.marker else current
  }

  /** The listing from response `k` on, the request for it carrying `marker`. */
  function Paginate(pages: seq<Result<UsersPage, Error>>, maxUsers: int, k: nat, marker: Option<string>): (run: Listing)
    requires Serves(pages, maxUsers) && k < |pages|
    ensures 1 <= |run.sent| <= |pages| - k
    decreases |pages| - k
  {
    var request := UsersRequest(maxUsers, marker);
    match pages[k]
    case Failure(e) => Listing(Failure(e), [request])
    case Success(page) =>
      if !page.isTruncated || maxUsers != DefaultMaxUsers then Listing(Success(page.users), [request])
      else Prepend(page.users, [request], Paginate(pages, maxUsers, k + 1, NextMarker(marker, pages[k])))
  }

  /** `UserWrapper.ListUsers`. */
  method ListUsers(api: Directory, maxUsers: int) returns (users: Result<seq<User>, Error>, sent: seq<UsersRequest>)
    requires Serves(api.pages, maxUsers)
    ensures Listing(users, sent) == Paginate(api.pages, maxUsers, 0, None)
  {
    var pages := api.pages;
    var collected: seq<User> := [];
    var marker: Option<string> := None;
    var k := 0;
    sent := [];
    PrependNothing(Paginate(pages, maxUsers, 0, None));
    while true
      invariant 0 <= k < |pages|
      invariant Paginate(pages, maxUsers, 0, None) == Prepend(collected, sent, Paginate(pages, maxUsers, k, marker))
      decreases |pages| - k
    {
      var request := UsersRequest(maxUsers, marker);
      ghost var sentBefore, before := sent, collected;
      sent := sent + [request];
      match pages[k] {
        case Failure(e) =>
          users := Failure(e);
          return;
        case Success(page) =>
          collected := collected + page.users;
          if page.marker.Some? {
            marker := page.marker;
          }
          if !page.isTruncated || maxUsers != DefaultMaxUsers {
            users := Success(collected);
            return;
          }
          assert marker == NextMarker(request.marker, pages[k]);
          PrependTwice(before, sentBefore, page.users, [request], Paginate(pages, maxUsers, k + 1, marker));
          k := k + 1;
      }
    }
  }

  /** All users of a run of successful pages, in page order. */
  function UsersOf(pages: seq<Result<UsersPage, Error>>): seq<User>
    requires forall i :: 0 <= i < |pages| ==> pages[i].Success?
  {
    if |pages| == 0 then [] else pages[0].value.users + UsersOf(pages[1..])
  }

  /** Which responses a listing reads: every response before the last one read
      was a truncated success and the limit is the default; the last one read
      failed, was not truncated, or the limit is not the default. */
  lemma {:induction false} PaginateReads(pages: seq<Result<UsersPage, Error>>, maxUsers: int, k: nat, marker: Option<string>)
    requires Serves(pages, maxUsers) && k < |pages|
    ensures var n := |Paginate(pages, maxUsers, k, marker).sent|;
      && (forall j :: k <= j < k + n - 1 ==>
            pages[j].Success? && pages[j].value.isTruncated && maxUsers == DefaultMaxUsers)
      && (pages[k + n - 1].Failure? || !pages[k + n - 1].value.isTruncated || maxUsers != DefaultMaxUsers)
    decreases |pages| - k
  {
    if pages[k].Success? && pages[k].value.isTruncated && maxUsers == DefaultMaxUsers {
      PaginateReads(pages, maxUsers, k + 1, NextMarker(marker, pages[k]));
    }
  }

  /** A listing fails exactly when the last response it reads is an error, and
      then returns no users at all; otherwise it returns the users of every page
      it read, concatenated in page order. */
  lemma {:induction false} PaginateResult(pages: seq<Result<UsersPage, Error>>, maxUsers: int, k: nat, marker: Option<string>)
    requires Serves(pages, maxUsers) && k < |pages|
    ensures var run := Paginate(pages, maxUsers, k, marker);
      var n := |run.sent|;
      && (run.result.Failure? <==> pages[k + n - 1].Failure?)
      && (run.result.Failure? ==> run.result.error == pages[k + n - 1].error)
      && (run.result.Success? ==>
            (forall j :: k <= j < k + n ==> pages[j].Success?) && run.result.value == UsersOf(pages[k..k + n]))
    decreases |pages| - k
  {
    var run := Paginate(pages, maxUsers, k, marker);
    if pages[k].Success? && pages[k].value.isTruncated && maxUsers == DefaultMaxUsers {
      var next := NextMarker(marker, pages[k]);
      var rest := Paginate(pages, maxUsers, k + 1, next);
      PaginateResult(pages, maxUsers, k + 1, next);
      var n := |run.sent|;
      assert n == 1 + |rest.sent|;
      if run.result.Success? {
        assert pages[k..k + n][1..] == pages[k + 1..k + 1 + |rest.sent|];
      }
    } else if pages[k].Success? {
      assert pages[k..k + 1][1..] == [];
    }
  }

  /** The requests a listing sends: all carry the requested `maxUsers`, the
      first carries the starting marker, and each later one carries the marker of
      the previous response when that response had one, else the marker sent
      before. */
  lemma {:induction false} PaginateRequests(pages: seq<Result<UsersPage, Error>>, maxUsers: int, k: nat, marker: Option<string>)
    requires Serves(pages, maxUsers) && k < |pages|
    ensures var sent := Paginate(pages, maxUsers, k, marker).sent;
      && sent[0] == UsersRequest(maxUsers, marker)
      && (forall j :: 0 <= j < |sent| ==> sent[j].maxItems == maxUsers)
      && (forall j :: 0 < j < |sent| ==> sent[j].marker == NextMarker(sent[j - 1].marker, pages[k + j - 1]))
    decreases |pages| - k
  {
    if pages[k].Success? && pages[k].value.isTruncated && maxUsers == DefaultMaxUsers {
      var next := NextMarker(marker, pages[k]);
      PaginateRequests(pages, maxUsers, k + 1, next);
      var rest := Paginate(pages, maxUsers, k + 1, next).sent;
      var sent := Paginate(pages, maxUsers, k, marker).sent;
      assert sent == [UsersRequest(maxUsers, marker)] + rest;
      forall j | 0 < j < |sent|
        ensures sent[j].marker == NextMarker(sent[j - 1].marker, pages[k + j - 1])
      {
        if j > 1 {
          assert sent[j] == rest[j - 1] && sent[j - 1] == rest[j - 2];
        }
      }
    }
  }

  /** Any limit other than the default stops after exactly one request. */
  lemma ExplicitLimitReadsOnePage(pages: seq<Result<UsersPage, Error>>, maxUsers: int)
    requires Serves(pages, maxUsers) && maxUsers != DefaultMaxUsers
    ensures var run := Paginate(pages, maxUsers, 0, None);
      && run.sent == [UsersRequest(maxUsers, None)]
      && run.result == (match pages[0] case Success(p) => Success(p.users) case Failure(e) => Failure(e))
  {
  }

  // ---------------------------------------------------------------------------
  // GetUser
  // ---------------------------------------------------------------------------

  /** Go's `(*types.User, error)` pair. */
  datatype UserLookup = UserLookup(user: Option<User>, err: Option<Error>)

  /** `UserWrapper.GetUser`: a missing user is neither a user nor an error. */
  function GetUser(api: Directory, userName: string): (r: UserLookup)
    ensures r.user.Some? <==> api.getUser(userName).Success?
    ensures r.user.Some? ==> r.user.value == api.getUser(userName).value && r.err == None
    ensures r.err.Some? <==> (api.getUser(userName).Failure? && api.getUser(userName).error != NoSuchEntity)
    ensures r.err.Some? ==> r.err.value == api.getUser(userName).error
  {
    match api.getUser(userName)
    case Success(u) => UserLookup(Some(u), None)
    case Failure(NoSuchEntity) => UserLookup(None, None)
    case Failure(e) => UserLookup(None, Some(e))
  }

  // ---------------------------------------------------------------------------
  // The older ListAccessKeys
  // ---------------------------------------------------------------------------

  /** The `AccessKeyData` declared in users.go: a pointer creation date and a
      status that stay unset for a key never used. */
  datatype LegacyAccessKeyData = LegacyAccessKeyData(
    id: string,
    createDate: Option<int>,
    keyStatus: Option<KeyStatus>,
    lastUsedTime: Time,
    lastUsedService: string)

  datatype LegacyUserAccessKeyData = LegacyUserAccessKeyData(userName: string, keys: seq<LegacyAccessKeyData>)

  /** The record built for one key from its last-use answer. */
  function LegacyKey(meta: KeyMetadata, used: LastUsed): (k: LegacyAccessKeyData)
    ensures k.id == meta.accessKeyId
    ensures used.lastUsedDate.None? ==>
      k.lastUsedService == "n/a" && k.createDate.None? && k.keyStatus.None? && k.lastUsedTime == Zero
    ensures used.lastUsedDate.Some? ==>
      && k.createDate == Some(meta.createDate) && k.keyStatus == Some(meta.status)
      && k.lastUsedTime == At(used.lastUsedDate.value) && k.lastUsedService == used.serviceName
  {
    if used.lastUsedDate.None? then
      LegacyAccessKeyData(meta.accessKeyId, None, None, Zero, "n/a")
    else
      LegacyAccessKeyData(meta.accessKeyId, Some(meta.createDate), Some(meta.status),
                          At(used.lastUsedDate.value), used.serviceName)
  }

  /** Every last-use lookup of `metas` answers. */
  predicate LookupsAnswer(api: Directory, metas: seq<KeyMetadata>)
  {
    forall i :: 0 <= i < |metas| ==> api.getAccessKeyLastUsed(metas[i].accessKeyId).Success?
  }

  /** The records of `metas`, in listing order. */
  function LegacyKeys(api: Directory, metas: seq<KeyMetadata>): seq<LegacyAccessKeyData>
    requires LookupsAnswer(api, metas)
  {
    if |metas| == 0 then []
    else
      var last := metas[|metas| - 1];
      LegacyKeys(api, metas[..|metas| - 1]) + [LegacyKey(last, api.getAccessKeyLastUsed(last.accessKeyId).value)]
  }

  /** The calls the older listing makes all answer; a failing one, or a zone
      that does not load while a used key is converted, dereferences nil. */
  predicate LegacyCallable(api: Directory, clock: Clock, userName: string, timeZone: string)
  {
    && api.listAccessKeys(userName).Success?
    && LookupsAnswer(api, api.listAccessKeys(userName).value)
    && (forall i :: 0 <= i < |api.listAccessKeys(userName).value| ==>
          var id := api.listAccessKeys(userName).value[i].accessKeyId;
          api.getAccessKeyLastUsed(id).value.lastUsedDate.Some? ==> clock.knownZone(timeZone))
  }

  /** The older `UserWrapper.ListAccessKeys`. */
  method ListAccessKeys(api: Directory, clock: Clock, userName: string, timeZone: string)
    returns (r: LegacyUserAccessKeyData, err: Option<Error>)
    requires LegacyCallable(api, clock, userName, timeZone)
    ensures r == LegacyUserAccessKeyData(userName, LegacyKeys(api, api.listAccessKeys(userName).value))
    ensures err == None
  {
    var metas := api.listAccessKeys(userName).value;
    var keys: seq<LegacyAccessKeyData> := [];
    var i := 0;
    while i < |metas|
      invariant 0 <= i <= |metas|
      invariant keys == LegacyKeys(api, metas[..i])
    {
      var used := api.getAccessKeyLastUsed(metas[i].accessKeyId).value;
      if used.lastUsedDate.None? {
        keys := keys + [LegacyAccessKeyData(metas[i].accessKeyId, None, None, Zero, "n/a")];
      } else {
        keys := keys + [LegacyAccessKeyData(metas[i].accessKeyId, Some(metas[i].createDate), Some(metas[i].status),
                                            At(used.lastUsedDate.value), used.serviceName)];
      }
      assert metas[..i + 1][..i] == metas[..i];
      i := i + 1;
    }
    assert metas[..i] == metas;
    r := LegacyUserAccessKeyData(userName, keys);
    err := None;
  }

  /** The older listing keeps one record per listed key, in listing order, each
      carrying that key's id. */
  lemma {:induction false} LegacyKeysOnePerKey(api: Directory, metas: seq<KeyMetadata>)
    requires LookupsAnswer(api, metas)
    ensures |LegacyKeys(api, metas)| == |metas|
    ensures forall i :: 0 <= i < |metas| ==>
      LegacyKeys(api, metas)[i] == LegacyKey(metas[i], api.getAccessKeyLastUsed(metas[i].accessKeyId).value)
  {
    if |metas| > 0 {
      var init := metas[..|metas| - 1];
      assert LookupsAnswer(api, init) by {
        forall i | 0 <= i < |init| ensures api.getAccessKeyLastUsed(init[i].accessKeyId).Success? {
          assert init[i] == metas[i];
        }
      }
      LegacyKeysOnePerKey(api, init);
    }
  }
}
