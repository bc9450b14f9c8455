/**
 * pkg/utils/output.go: the dispatch of `DisplayData` on the output format and
 * `processTableData`, which flattens access-key records into table rows.
 * Rendering (JSON, the file write, the coloured table) is not modelled; the
 * dispatch says which renderer receives what.
 */
module Output {
  import opened Wrappers
  import opened Common
  import Keys

  /** The column titles of the key table. */
  const Headers: seq<string> := ["UserName", "KeyId", "CreateDate", "KeyStatus", "LastUsedTime", "LastUsedService"]

  /** One row of the key table. `stamp` renders a time in the layout
      "2006-01-02 15:04:05". */
  function Row(userName: string, key: Keys.AccessKeyData, stamp: int -> string): seq<string>
  {
    [ userName,
      key.id,
      stamp(key.createDate),
      StatusName(key.keyStatus),
      match key.lastUsedTime case Zero => "n/a" case At(t) => stamp(t),
      key.lastUsedService ]
  }

  /** The rows of one user's keys, in key order. */
  function KeyRows(userName: string, keys: seq<Keys.AccessKeyData>, stamp: int -> string): seq<seq<string>>
  {
    if |keys| == 0 then []
    else KeyRows(userName, keys[..|keys| - 1], stamp) + [Row(userName, keys[|keys| - 1], stamp)]
  }

  /** The rows of one item: one per key of an access-key record, none for any
      other kind of item. */
  function ItemRows(item: Keys.UserData, stamp: int -> string): seq<seq<string>>
  {
    if item.AccessKeys? then KeyRows(item.data.userName, item.data.keys, stamp) else []
  }

  /** The rows of all items, item by item. */
  function TableRows(items: seq<Keys.UserData>, stamp: int -> string): seq<seq<string>>
  {
    if |items| == 0 then [] else ItemRows(items[0], stamp) + TableRows(items[1..], stamp)
  }

  /** The number of keys held by the access-key records among `items`. */
  function KeyCount(items: seq<Keys.UserData>): nat
  {
    if |items| == 0 then 0
    else (if items[0].AccessKeys? then |items[0].data.keys| else 0) + KeyCount(items[1..])
  }

  /** `processTableData`. The type test on the argument always succeeds, so the
      headers are always set; the error is always nil. */
  method ProcessTableData(value: seq<Keys.UserData>, stamp: int -> string)
    returns (headers: seq<string>, data: seq<seq<string>>, err: Option<Error>)
    ensures headers == Headers
    ensures data == TableRows(value, stamp)
    ensures err == None
  {
    headers := Headers;
    data := [];
    for i := 0 to |value|
      invariant data == TableRows(value[..i], stamp)
    {
      var item := value[i];
      TableRowsSnoc(value[..i], item, stamp);
      assert value[..i + 1] == value[..i] + [item];
      if item.AccessKeys? {
        var user := item.data;
        ghost var before := data;
        for j := 0 to |user.keys|
          invariant data == before + KeyRows(user.userName, user.keys[..j], stamp)
        {
          var key := user.keys[j];
          var lastUsedTime := if key.lastUsedTime.Zero? then "n/a" else stamp(key.lastUsedTime.seconds);
          var row := [user.userName, key.id, stamp(key.createDate), StatusName(key.keyStatus), lastUsedTime, key.lastUsedService];
          assert user.keys[..j + 1][..j] == user.keys[..j];
          data := data + [row];
        }
        assert user.keys[..|user.keys|] == user.keys;
      }
    }
    assert value[..|value|] == value;
    err := None;
  }

  /** Row `j` of a user's rows is the row of key `j`. */
  lemma {:induction false} KeyRowsAt(userName: string, keys: seq<Keys.AccessKeyData>, stamp: int -> string)
    ensures |KeyRows(userName, keys, stamp)| == |keys|
    ensures forall j :: 0 <= j < |keys| ==> KeyRows(userName, keys, stamp)[j] == Row(userName, keys[j], stamp)
    decreases |keys|
  {
    if |keys| > 0 {
      KeyRowsAt(userName, keys[..|keys| - 1], stamp);
    }
  }

  /** There is one row per key. */
  lemma {:induction false} TableRowsCount(items: seq<Keys.UserData>, stamp: int -> string)
    ensures |TableRows(items, stamp)| == KeyCount(items)
    decreases |items|
  {
    if |items| > 0 {
      TableRowsCount(items[1..], stamp);
      if items[0].AccessKeys? {
        KeyRowsAt(items[0].data.userName, items[0].data.keys, stamp);
      }
    }
  }

  /** Rows follow the items: the rows of two runs of items are the rows of
      the first followed by those of the second. */
  lemma {:induction false} TableRowsConcat(a: seq<Keys.UserData>, b: seq<Keys.UserData>, stamp: int -> string)
    ensures TableRows(a + b, stamp) == TableRows(a, stamp) + TableRows(b, stamp)
    decreases |a|
  {
    if |a| == 0 {
      assert a + b == b;
    } else {
      var head, tail := ItemRows(a[0], stamp), a[1..];
      assert (a + b)[0] == a[0];
      assert (a + b)[1..] == tail + b;
      TableRowsConcat(tail, b, stamp);
      assert TableRows(a + b, stamp) == head + (TableRows(tail, stamp) + TableRows(b, stamp));
      assert TableRows(a, stamp) == head + TableRows(tail, stamp);
    }
  }

  /** One more item adds its rows at the end. */
  lemma TableRowsSnoc(items: seq<Keys.UserData>, item: Keys.UserData, stamp: int -> string)
    ensures TableRows(items + [item], stamp) == TableRows(items, stamp) + ItemRows(item, stamp)
  {
    TableRowsConcat(items, [item], stamp);
    assert [item][1..] == [];
  }

  /** Item-then-key order: key `j` of item `i` is in the row that follows the
      rows of the items before `i` and of the keys before `j`. Its cells are
      the user name, the key id, the creation date, the status, the last-use
      time ("n/a" when there is none) and the last-use service. */
  lemma RowAt(items: seq<Keys.UserData>, i: int, j: int, stamp: int -> string)
    requires 0 <= i < |items| && items[i].AccessKeys? && 0 <= j < |items[i].data.keys|
    ensures var k := KeyCount(items[..i]) + j;
      var key := items[i].data.keys[j];
      && k < |TableRows(items, stamp)|
      && TableRows(items, stamp)[k] == Row(items[i].data.userName, key, stamp)
      && |TableRows(items, stamp)[k]| == |Headers|
      && (key.lastUsedTime.Zero? ==> TableRows(items, stamp)[k][4] == "n/a")
  {
    var before := items[..i];
    var rest := items[i..];
    assert items == before + rest;
    assert rest[1..] == items[i + 1..];
    TableRowsConcat(before, rest, stamp);
    TableRowsCount(before, stamp);
    KeyRowsAt(items[i].data.userName, items[i].data.keys, stamp);
  }

  /** Every row has one cell per header. */
  lemma {:induction false} RowsMatchHeaders(items: seq<Keys.UserData>, stamp: int -> string)
    ensures forall r :: r in TableRows(items, stamp) ==> |r| == |Headers|
    decreases |items|
  {
    if |items| > 0 {
      RowsMatchHeaders(items[1..], stamp);
      if items[0].AccessKeys? {
        KeyRowsAt(items[0].data.userName, items[0].data.keys, stamp);
      }
    }
  }

  /** Items that are not access-key records add no rows. */
  lemma {:induction false} OnlyKeyItemsMakeRows(items: seq<Keys.UserData>, stamp: int -> string)
    ensures TableRows(items, stamp) == TableRows(Keys.KeyItems(items), stamp)
    decreases |items|
  {
    if |items| > 0 {
      var first := if items[0].AccessKeys? then [items[0]] else [];
      OnlyKeyItemsMakeRows(items[1..], stamp);
      TableRowsConcat(first, Keys.KeyItems(items[1..]), stamp);
      if items[0].AccessKeys? {
        assert first[1..] == [];
      }
    }
  }

  /** What `DisplayData` hands to which renderer. */
  datatype Display =
    | NoData                                                      // the warning, nothing rendered
    | JsonOutput(value: seq<Keys.UserData>)                       // printed as JSON
    | FileOutput(path: string, value: seq<Keys.UserData>)         // written as JSON to `path`
    | TableOutput(headers: seq<string>, rows: seq<seq<string>>, stale: int)
    | FormatError(format: string)                                 // logged, nothing rendered

  /** The formats `DisplayData` renders. */
  const RenderedFormats: set<string> := {"json", "file", "table"}

  /** `DisplayData`: nothing for no data; otherwise the renderer for the format,
      or an error for any other format. */
  function DisplayData(outputFormat: string, path: string, stale: int, value: seq<Keys.UserData>,
                       stamp: int -> string): (d: Display)
    ensures d.NoData? <==> |value| == 0
    ensures d.FormatError? <==> |value| > 0 && outputFormat !in RenderedFormats
    ensures d.FormatError? ==> d.format == outputFormat
    ensures |value| > 0 && outputFormat == "json" ==> d == JsonOutput(value)
    ensures |value| > 0 && outputFormat == "file" ==> d == FileOutput(path, value)
    ensures d.TableOutput? <==> |value| > 0 && outputFormat == "table"
    ensures d.TableOutput? ==> d.headers == Headers && d.rows == TableRows(value, stamp) && d.stale == stale
    ensures d.TableOutput? ==> |d.rows| == KeyCount(value)
  {
    if |value| == 0 then NoData
    else if outputFormat == "json" then JsonOutput(value)
    else if outputFormat == "file" then FileOutput(path, value)
    else if outputFormat == "table" then
      TableRowsCount(value, stamp);
      TableOutput(Headers, TableRows(value, stamp), stale)
    else FormatError(outputFormat)
  }
}
