/**
 * pkg/utils/parser.go: merging the data of secret manifests into one set of
 * environment variables, and writing them as a dotenv file that keeps the
 * values of an existing file for keys the caller does not set. The file system
 * is abstracted: the existing file is an optional input string and the written
 * file is the returned content.
 */
module Parser {
  import opened Wrappers
  import opened Strings

  /** A manifest's `data` and `stringData`; a nil map is the empty map. */
  datatype YamlDoc = YamlDoc(data: map<string, string>, stringData: map<string, string>)

  type EnvVarObject = map<string, string>

  // ---------------------------------------------------------------------------
  // MergeDataFromManifests
  // ---------------------------------------------------------------------------

  /** The merge of `manifests`: each manifest's `data`, then its `stringData`,
      overwrites what came before. */
  function Merged(manifests: seq<YamlDoc>): (r: EnvVarObject)
    ensures forall i, k :: 0 <= i < |manifests| && k in manifests[i].data ==> k in r
    ensures forall i, k :: 0 <= i < |manifests| && k in manifests[i].stringData ==> k in r
    ensures |manifests| > 0 ==>
      var last := manifests[|manifests| - 1];
      forall k :: k in last.stringData ==> r[k] == last.stringData[k]
  {
    if |manifests| == 0 then map[]
    else
      var last := manifests[|manifests| - 1];
      var init := manifests[..|manifests| - 1];
      assert forall i :: 0 <= i < |init| ==> init[i] == manifests[i];
      Merged(init) + last.data + last.stringData
  }

  /** Copies every entry of `source` into `target`, one key at a time in an
      unspecified order, as a Go `range` over a map does. */
  method CopyEntries(target: EnvVarObject, source: map<string, string>) returns (r: EnvVarObject)
    ensures r == target + source
  {
    r := target;
    var rest := source.Keys;
    while rest != {}
      invariant rest <= source.Keys
      invariant r == target + (source - rest)
      decreases |rest|
    {
      var k :| k in rest;
      r := r[k := source[k]];
      rest := rest - {k};
    }
    assert source - rest == source;
  }

  /** `MergeDataFromManifests`. */
  method MergeDataFromManifests(manifests: seq<YamlDoc>) returns (envData: EnvVarObject)
    ensures envData == Merged(manifests)
  {
    envData := map[];
    for i := 0 to |manifests|
      invariant envData == Merged(manifests[..i])
    {
      assert manifests[..i + 1][..i] == manifests[..i];
      envData := CopyEntries(envData, manifests[i].data);
      envData := CopyEntries(envData, manifests[i].stringData);
    }
    assert manifests[..|manifests|] == manifests;
  }

  /** Merging no manifests gives no variables. */
  lemma MergedNothing()
    ensures Merged([]) == map[]
  {
  }

  /** Whether manifest `m` defines `k`, in either map. */
  predicate DefinesKey(m: YamlDoc, k: string)
  {
    k in m.data || k in m.stringData
  }

  /** The value a manifest gives a key: `stringData` wins over `data`. */
  function ValueIn(m: YamlDoc, k: string): string
    requires DefinesKey(m, k)
  {
    if k in m.stringData then m.stringData[k] else m.data[k]
  }

  /** The index of the last manifest defining `k`, or -1 when none does. */
  function LastDefining(manifests: seq<YamlDoc>, k: string): (i: int)
    ensures -1 <= i < |manifests|
    ensures i >= 0 ==> DefinesKey(manifests[i], k)
    ensures forall j :: i < j < |manifests| ==> !DefinesKey(manifests[j], k)
  {
    if |manifests| == 0 then -1
    else if DefinesKey(manifests[|manifests| - 1], k) then |manifests| - 1
    else
      var init := manifests[..|manifests| - 1];
      assert forall j :: 0 <= j < |init| ==> init[j] == manifests[j];
      LastDefining(init, k)
  }

  /** A key is merged exactly when some manifest defines it, and it takes its
      value from the last manifest defining it, from `stringData` when both of
      that manifest's maps define it. */
  lemma {:induction false} MergedValue(manifests: seq<YamlDoc>, k: string)
    ensures k in Merged(manifests) <==> LastDefining(manifests, k) >= 0
    ensures k in Merged(manifests) ==> Merged(manifests)[k] == ValueIn(manifests[LastDefining(manifests, k)], k)
    decreases |manifests|
  {
    if |manifests| > 0 && !DefinesKey(manifests[|manifests| - 1], k) {
      var init := manifests[..|manifests| - 1];
      MergedValue(init, k);
      var i := LastDefining(init, k);
      if i >= 0 {
        assert init[i] == manifests[i];
      }
    }
  }

  // ---------------------------------------------------------------------------
  // Reading an existing dotenv file
  // ---------------------------------------------------------------------------

  /** Drops one trailing carriage return. */
  function DropCR(line: string): string
  {
    if |line| > 0 && line[|line| - 1] == '\r' then line[..|line| - 1] else line
  }

  /** The lines `bufio.ScanLines` yields: split at each newline, a trailing
      carriage return dropped from each, and no empty token after a final
      newline. */
  function SplitLines(s: string): (lines: seq<string>)
    ensures forall j :: 0 <= j < |lines| ==> '\n' !in lines[j]
    decreases |s|
  {
    if |s| == 0 then []
    else
      var i := IndexOf(s, '\n');
      if i == |s| then assert s[..i] == s; [DropCR(s)] else [DropCR(s[..i])] + SplitLines(s[i + 1..])
  }

  /** Each line followed by a newline. */
  function JoinLines(lines: seq<string>): string
  {
    if |lines| == 0 then "" else lines[0] + "\n" + JoinLines(lines[1..])
  }

  /** A line `SplitLines` gives back unchanged. */
  predicate WholeLine(line: string)
  {
    '\n' !in line && (|line| > 0 ==> line[|line| - 1] != '\r')
  }

  /** Splitting undoes joining. */
  lemma {:induction false} SplitJoin(lines: seq<string>)
    requires forall l :: l in lines ==> WholeLine(l)
    ensures SplitLines(JoinLines(lines)) == lines
    decreases |lines|
  {
    if |lines| > 0 {
      var l := lines[0];
      var s := JoinLines(lines);
      var i := IndexOf(s, '\n');
      assert lines[0] in lines;
      assert '\n' !in l;
      assert s[|l|] == '\n';
      assert i == |l|;
      assert s[..i] == l;
      assert s[i + 1..] == JoinLines(lines[1..]);
      assert DropCR(l) == l;
      assert forall x :: x in lines[1..] ==> x in lines;
      SplitJoin(lines[1..]);
      assert SplitLines(s) == [l] + SplitLines(JoinLines(lines[1..]));
      assert lines == [l] + lines[1..];
    }
  }

  /** The key and raw value of an existing-file line: empty lines and lines
      starting with "#" are skipped, as are lines without "="; otherwise the
      line is split at its first "=" and both halves are whitespace-trimmed. */
  function ParseLine(line: string): (r: Option<(string, string)>)
    ensures r.None? <==> |line| == 0 || line[0] == '#' || '=' !in line
  {
    if |line| == 0 || line[0] == '#' then None
    else
      var i := IndexOf(line, '=');
      if i == |line| then assert line[..i] == line; None else Some((TrimSpace(line[..i]), TrimSpace(line[i + 1..])))
  }

  /** A line is skipped exactly when it is empty, starts with "#" or has no "=";
      otherwise it splits at its first "=". */
  lemma ParseLineCases(line: string)
    ensures ParseLine(line).None? <==> |line| == 0 || line[0] == '#' || '=' !in line
    ensures ParseLine(line).Some? ==>
      exists i :: 0 <= i < |line| && line[i] == '=' && '=' !in line[..i]
        && ParseLine(line).value == (TrimSpace(line[..i]), TrimSpace(line[i + 1..]))
  {
    if |line| > 0 && line[0] != '#' {
      var i := IndexOf(line, '=');
      if i == |line| {
        assert line[..i] == line;
      }
    }
  }

  /** The quote characters stripped from values. */
  const Quotes: set<char> := {'\'', '"'}

  /** One existing line applied to the variables: its key is added, with the
      value's surrounding quotes stripped, only when the key is absent. */
  function Absorb(env: EnvVarObject, line: string): (r: EnvVarObject)
    ensures forall k :: k in env ==> k in r && r[k] == env[k]
    ensures forall k :: k in r && k !in env ==> ParseLine(line).Some? && k == ParseLine(line).value.0
  {
    match ParseLine(line)
    case None => env
    case Some((key, value)) => if key in env then env else env[key := Trim(value, Quotes)]
  }

  /** All existing lines applied in file order. */
  function ApplyLines(env: EnvVarObject, lines: seq<string>): EnvVarObject
  {
    if |lines| == 0 then env else Absorb(ApplyLines(env, lines[..|lines| - 1]), lines[|lines| - 1])
  }

  /** The scanning loop of `GenerateEnvFile` over the existing file's content. */
  method FillFromExisting(envObject: EnvVarObject, existing: string) returns (env: EnvVarObject)
    ensures env == ApplyLines(envObject, SplitLines(existing))
  {
    var lines := SplitLines(existing);
    env := envObject;
    for i := 0 to |lines|
      invariant env == ApplyLines(envObject, lines[..i])
    {
      assert lines[..i + 1][..i] == lines[..i];
      var parsed := ParseLine(lines[i]);
      if parsed.Some? {
        var (key, value) := parsed.value;
        if key !in env {
          env := env[key := Trim(value, Quotes)];
        }
      }
    }
    assert lines[..|lines|] == lines;
  }

  /** The caller's variables always win: every key it set keeps its value. */
  lemma {:induction false} CallerWins(env: EnvVarObject, lines: seq<string>)
    ensures forall k :: k in env ==> k in ApplyLines(env, lines) && ApplyLines(env, lines)[k] == env[k]
    decreases |lines|
  {
    if |lines| > 0 {
      CallerWins(env, lines[..|lines| - 1]);
    }
  }

  /** Whether an existing-file line sets `key`. */
  predicate LineDefines(line: string, key: string)
  {
    ParseLine(line).Some? && ParseLine(line).value.0 == key
  }

  /** The index of the first line that sets `key`, or `|lines|` when none does. */
  function FirstDefining(lines: seq<string>, key: string): (i: nat)
    ensures i <= |lines|
    ensures i < |lines| ==> LineDefines(lines[i], key)
    ensures forall j :: 0 <= j < i ==> !LineDefines(lines[j], key)
  {
    if |lines| == 0 then 0
    else
      var init := lines[..|lines| - 1];
      var f := FirstDefining(init, key);
      assert forall j :: 0 <= j < |init| ==> init[j] == lines[j];
      if f < |init| then f
      else if LineDefines(lines[|lines| - 1], key) then |init|
      else |lines|
  }

  /** A key the caller did not set is present after reading exactly when some
      line sets it, and then takes the quote-stripped value of the first such
      line: later duplicates are ignored. */
  lemma {:induction false} FirstDefinitionWins(env: EnvVarObject, lines: seq<string>, key: string)
    requires key !in env
    ensures var f := FirstDefining(lines, key);
      && (key in ApplyLines(env, lines) <==> f < |lines|)
      && (f < |lines| ==> ApplyLines(env, lines)[key] == Trim(ParseLine(lines[f]).value.1, Quotes))
    decreases |lines|
  {
    if |lines| > 0 {
      var init := lines[..|lines| - 1];
      FirstDefinitionWins(env, init, key);
      assert forall j :: 0 <= j < |init| ==> init[j] == lines[j];
    }
  }

  // ---------------------------------------------------------------------------
  // Writing the dotenv file
  // ---------------------------------------------------------------------------

  /** The line written for one variable. */
  function EntryLine(key: string, value: string): string
  {
    key + "='" + value + "'"
  }

  /** The lines written for the keys in `order`. */
  function EntryLines(env: EnvVarObject, order: seq<string>): (lines: seq<string>)
    requires forall k :: k in order ==> k in env
    ensures |lines| == |order|
    ensures forall i :: 0 <= i < |order| ==> lines[i] == EntryLine(order[i], env[order[i]])
  {
    if |order| == 0 then [] else [EntryLine(order[0], env[order[0]])] + EntryLines(env, order[1..])
  }

  /** `order` lists every key of `env` exactly once. */
  ghost predicate Enumerates(order: seq<string>, env: EnvVarObject)
  {
    && (forall k :: k in order <==> k in env)
    && (forall i, j :: 0 <= i < j < |order| ==> order[i] != order[j])
  }

  lemma {:induction false} JoinLinesSnoc(lines: seq<string>, line: string)
    ensures JoinLines(lines + [line]) == JoinLines(lines) + line + "\n"
    decreases |lines|
  {
    if |lines| > 0 {
      assert (lines + [line])[1..] == lines[1..] + [line];
      JoinLinesSnoc(lines[1..], line);
    } else {
      assert [] + [line] == [line];
    }
  }

  /** The writing loop of `GenerateEnvFile`: one line per variable, in the
      order the map is iterated, which `order` reports. */
  method Render(env: EnvVarObject) returns (content: string, order: seq<string>)
    ensures Enumerates(order, env)
    ensures content == JoinLines(EntryLines(env, order))
  {
    content := "";
    order := [];
    var rest := env.Keys;
    while rest != {}
      invariant rest <= env.Keys
      invariant forall k :: k in order <==> k in env && k !in rest
      invariant forall i, j :: 0 <= i < j < |order| ==> order[i] != order[j]
      invariant content == JoinLines(EntryLines(env, order))
      decreases |rest|
    {
      var k :| k in rest;
      JoinLinesSnoc(EntryLines(env, order), EntryLine(k, env[k]));
      assert EntryLines(env, order + [k]) == EntryLines(env, order) + [EntryLine(k, env[k])];
      content := content + EntryLine(k, env[k]) + "\n";
      order := order + [k];
      rest := rest - {k};
    }
  }

  /** `GenerateEnvFile`: the caller's variables, completed from the existing
      file when there is one, written one line each. Returns the variables
      after completion (the caller's map is updated in place) and the file
      content. */
  method GenerateEnvFile(envObject: EnvVarObject, existing: Option<string>)
    returns (env: EnvVarObject, content: string, order: seq<string>)
    ensures env == if existing.Some? then ApplyLines(envObject, SplitLines(existing.value)) else envObject
    ensures Enumerates(order, env)
    ensures content == JoinLines(EntryLines(env, order))
  {
    env := envObject;
    if existing.Some? {
      env := FillFromExisting(env, existing.value);
    }
    content, order := Render(env);
  }

  /** The written file has exactly one line per variable, the variables in
      the order of `order`. */
  lemma WrittenLines(env: EnvVarObject, order: seq<string>)
    requires Enumerates(order, env)
    requires forall k :: k in env ==> '\n' !in k && '\n' !in env[k]
    ensures var lines := SplitLines(JoinLines(EntryLines(env, order)));
      && |lines| == |order| == |env|
      && (forall i :: 0 <= i < |lines| ==> lines[i] == EntryLine(order[i], env[order[i]]))
      && (forall k :: k in env ==> EntryLine(k, env[k]) in lines)
  {
    var lines := EntryLines(env, order);
    forall i | 0 <= i < |order|
      ensures order[i] in env
    {
      assert order[i] in order;
    }
    WrittenSplit(env, order);
    DistinctCount(order, env);
    forall k | k in env
      ensures EntryLine(k, env[k]) in lines
    {
      var i :| 0 <= i < |order| && order[i] == k;
      assert lines[i] == EntryLine(k, env[k]);
    }
  }

  lemma EntryLineWhole(key: string, value: string)
    requires '\n' !in key && '\n' !in value
    ensures WholeLine(EntryLine(key, value))
  {
    var l := EntryLine(key, value);
    assert l == key + ("='" + value + "'");
    assert l[|l| - 1] == '\'';
  }

  /** A sequence without repetitions has as many distinct elements as entries. */
  lemma {:induction false} DistinctElements(s: seq<string>)
    requires forall i, j :: 0 <= i < j < |s| ==> s[i] != s[j]
    ensures |set x | x in s| == |s|
    decreases |s|
  {
    if |s| > 0 {
      var init := s[..|s| - 1];
      var last := s[|s| - 1];
      DistinctElements(init);
      assert s == init + [last];
      forall i | 0 <= i < |init|
        ensures init[i] != last
      {
        assert init[i] == s[i];
      }
      assert (set x | x in s) == (set x | x in init) + {last};
    }
  }

  /** A duplicate-free enumeration has as many elements as the map has keys. */
  lemma DistinctCount(order: seq<string>, env: EnvVarObject)
    requires Enumerates(order, env)
    ensures |order| == |env|
  {
    DistinctElements(order);
    assert (set x | x in order) == env.Keys;
  }

  /** Keys and values that read back as written: a key without "=" or newline,
      not starting with "#" and not padded with white space; a value without
      newline whose ends are not quote characters. */
  predicate PlainEntry(key: string, value: string)
  {
    && '=' !in key && '\n' !in key
    && (|key| > 0 ==> key[0] != '#' && key[0] !in WhiteSpace && key[|key| - 1] !in WhiteSpace)
    && '\n' !in value
    && (|value| > 0 ==> value[0] !in Quotes && value[|value| - 1] !in Quotes)
  }

  /** Stripping quotes from a quoted value gives back the value. */
  lemma TrimQuoted(value: string)
    requires |value| > 0 ==> value[0] !in Quotes && value[|value| - 1] !in Quotes
    ensures Trim("'" + value + "'", Quotes) == value
  {
    var s := "'" + value + "'";
    if |value| == 0 {
      TrimAllCut(s, Quotes);
    } else {
      TrimExact(s, Quotes, 1, |s| - 1);
      assert s[1..|s| - 1] == value;
    }
  }

  /** An entry line parses back to its key and quoted value. */
  lemma ParseEntryLine(key: string, value: string)
    requires PlainEntry(key, value)
    ensures ParseLine(EntryLine(key, value)) == Some((key, "'" + value + "'"))
  {
    var line := EntryLine(key, value);
    var i := IndexOf(line, '=');
    assert line[|key|] == '=';
    assert i == |key|;
    assert line[..i] == key;
    assert line[i + 1..] == "'" + value + "'";
    TrimUntouched(key, WhiteSpace);
    TrimUntouched("'" + value + "'", WhiteSpace);
  }

  /** The variables named in `keys`, with their values in `env`. */
  function Restrict(env: EnvVarObject, keys: seq<string>): EnvVarObject
    requires forall i :: 0 <= i < |keys| ==> keys[i] in env
  {
    if |keys| == 0 then map[]
    else Restrict(env, keys[..|keys| - 1])[keys[|keys| - 1] := env[keys[|keys| - 1]]]
  }

  /** `Restrict` keeps exactly the named variables, with their values. */
  lemma {:induction false} RestrictSpec(env: EnvVarObject, keys: seq<string>)
    requires forall i :: 0 <= i < |keys| ==> keys[i] in env
    ensures forall k :: k in Restrict(env, keys) <==> k in keys
    ensures forall k :: k in Restrict(env, keys) ==> Restrict(env, keys)[k] == env[k]
    decreases |keys|
  {
    if |keys| > 0 {
      var init := keys[..|keys| - 1];
      RestrictSpec(env, init);
      assert keys == init + [keys[|keys| - 1]];
    }
  }

  /** Reading back a written file into no variables recovers every variable,
      when keys and values are plain. */
  lemma WrittenFileReadsBack(env: EnvVarObject, order: seq<string>)
    requires Enumerates(order, env)
    requires forall k :: k in env ==> PlainEntry(k, env[k])
    ensures ApplyLines(map[], SplitLines(JoinLines(EntryLines(env, order)))) == env
  {
    EnumeratesPlain(env, order);
    WrittenSplit(env, order);
    ReadBackPrefix(env, order);
    RestrictAll(env, order);
  }

  lemma EnumeratesPlain(env: EnvVarObject, order: seq<string>)
    requires Enumerates(order, env)
    requires forall k :: k in env ==> PlainEntry(k, env[k])
    ensures PlainDistinct(env, order)
  {
    forall i | 0 <= i < |order|
      ensures order[i] in env
    {
      assert order[i] in order;
    }
  }

  /** The written lines split back into themselves. */
  lemma WrittenSplit(env: EnvVarObject, order: seq<string>)
    requires forall i :: 0 <= i < |order| ==> order[i] in env && '\n' !in order[i] && '\n' !in env[order[i]]
    ensures SplitLines(JoinLines(EntryLines(env, order))) == EntryLines(env, order)
  {
    var lines := EntryLines(env, order);
    forall l | l in lines
      ensures WholeLine(l)
    {
      var i :| 0 <= i < |lines| && lines[i] == l;
      EntryLineWhole(order[i], env[order[i]]);
    }
    SplitJoin(lines);
  }

  /** Restricting to an enumeration of all keys gives the whole map. */
  lemma RestrictAll(env: EnvVarObject, order: seq<string>)
    requires Enumerates(order, env)
    ensures forall i :: 0 <= i < |order| ==> order[i] in env
    ensures Restrict(env, order) == env
  {
    forall i | 0 <= i < |order|
      ensures order[i] in env
    {
      assert order[i] in order;
    }
    RestrictSpec(env, order);
    assert Restrict(env, order).Keys == env.Keys;
  }

  /** Distinct variables, each present in `env` with a plain key and value. */
  predicate PlainDistinct(env: EnvVarObject, keys: seq<string>)
  {
    && (forall i :: 0 <= i < |keys| ==> keys[i] in env && PlainEntry(keys[i], env[keys[i]]))
    && (forall i, j :: 0 <= i < j < |keys| ==> keys[i] != keys[j])
  }

  /** Reading the written lines of distinct plain variables recovers them. */
  lemma {:induction false} ReadBackPrefix(env: EnvVarObject, keys: seq<string>)
    requires PlainDistinct(env, keys)
    ensures ApplyLines(map[], EntryLines(env, keys)) == Restrict(env, keys)
    decreases |keys|
  {
    if |keys| > 0 {
      var init := keys[..|keys| - 1];
      var key := keys[|keys| - 1];
      PlainDistinctInit(env, keys);
      ReadBackPrefix(env, init);
      EntryLinesInit(env, keys);
      RestrictSpec(env, init);
      ReadBackLine(Restrict(env, init), key, env[key]);
    }
  }

  /** Dropping the last variable keeps the others plain and distinct, and the
      last is not among them. */
  lemma PlainDistinctInit(env: EnvVarObject, keys: seq<string>)
    requires PlainDistinct(env, keys) && |keys| > 0
    ensures PlainDistinct(env, keys[..|keys| - 1])
    ensures keys[|keys| - 1] !in keys[..|keys| - 1]
    ensures PlainEntry(keys[|keys| - 1], env[keys[|keys| - 1]])
  {
  }

  lemma EntryLinesInit(env: EnvVarObject, keys: seq<string>)
    requires forall i :: 0 <= i < |keys| ==> keys[i] in env
    requires |keys| > 0
    ensures EntryLines(env, keys)[..|keys| - 1] == EntryLines(env, keys[..|keys| - 1])
    ensures EntryLines(env, keys)[|keys| - 1] == EntryLine(keys[|keys| - 1], env[keys[|keys| - 1]])
  {
  }

  /** Reading one written line adds its variable with its value. */
  lemma ReadBackLine(before: EnvVarObject, key: string, value: string)
    requires key !in before && PlainEntry(key, value)
    ensures Absorb(before, EntryLine(key, value)) == before[key := value]
  {
    ParseEntryLine(key, value);
    TrimQuoted(value);
  }
}
