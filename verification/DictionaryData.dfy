/** Generated dictionary columns (benchmarks/src/dict.rs): in one piece and sliced, or batch by
    batch with a dictionary each. */
module DictionaryData {
  import opened Numbers
  import opened Text
  import D = Decimal
  import Q = QueryFilenames
  import V = Division

  const ITEMS_PER_VALUE: nat := 4
  const NULL_EVERY: nat := 7
  const MAX_KEY: nat := 0x7fff_ffff

  datatype Cardinality = Five | Ten | TwentyFive

  /** A column of strings or of lists of strings, perhaps with nulls. */
  datatype Column = Column(lists: bool, cardinality: Cardinality, nulls: bool)

  datatype Config = Config(rows: nat, distinct: Option<nat>, batchSize: Option<nat>, valueLength: Option<nat>,
                           perBatch: bool, dictionary: bool)

  datatype Error = NoRows | NoValues | MoreValuesThanRows | TooManyValues | NoBatchSize | NotADictionary

  type Value = seq<string>

  /** Keys, some of them null, into values. */
  datatype DictionaryArray = DictionaryArray(keys: seq<Option<nat>>, values: seq<Value>)

  function NumDistinct(c: Cardinality, size: nat): nat {
    var n := match c case Five => size / 20 case Ten => size / 10 case TwentyFive => size / 4;
    if n < 1 then 1 else n
  }

  function Clamp(n: nat): (d: nat)
    ensures 1 <= d <= MAX_KEY
  {
    if n < 1 then 1 else if n > MAX_KEY then MAX_KEY else n
  }

  /** `padded_value`; the values are ASCII. */
  function Padded(value: string, length: Option<nat>): string {
    if length.Some? && length.value > |value| then value + seq(length.value - |value|, _ => 'x') else value
  }

  function ValueAt(lists: bool, length: Option<nat>, i: nat): Value {
    if lists
    then seq(ITEMS_PER_VALUE, j requires 0 <= j => Padded("value_" + D.Show(i) + "_" + D.Show(j), length))
    else [Padded("value_" + D.Show(i), length)]
  }

  function Values(lists: bool, length: Option<nat>, distinct: nat): seq<Value> {
    seq(distinct, i requires 0 <= i => ValueAt(lists, length, i))
  }

  function KeyAt(distinct: nat, nulls: bool, row: nat): Option<nat>
    requires distinct > 0
  {
    if nulls && row % NULL_EVERY == 0 then None else Some(row % distinct)
  }

  /** The percentage that a cardinality is named after. */
  function Percent(c: Cardinality): nat {
    match c case Five => 5 case Ten => 10 case TwentyFive => 25
  }

  /** As many values as that percentage of the rows, rounded down, and one at least. */
  lemma DistinctIsPercentage(c: Cardinality, size: nat)
    ensures var n, part := NumDistinct(c, size), Percent(c) * size;
            if part < 100 then n == 1 else n * 100 <= part < (n + 1) * 100
  {
  }

  lemma ClampIs(n: nat)
    ensures 1 <= n <= 2147483647 ==> Clamp(n) == n
    ensures n == 0 ==> Clamp(n) == 1
    ensures n > 2147483647 ==> Clamp(n) == 2147483647
  {
  }

  /** A value is filled up to the length with `x`; a longer one stays as it is. */
  lemma PaddedIs(value: string, length: nat)
    ensures var s := Padded(value, Some(length));
            && value <= s && Only(s[|value|..], {'x'}) && |s| == if |value| < length then length else |value|
    ensures Padded(value, None) == value
  {
  }

  /** Nulls are one in seven rows, beginning with the first. */
  lemma {:induction false} NullsAreOneInSeven(c: Column, length: Option<nat>, distinct: nat, n: nat)
    requires c.nulls && distinct > 0
    ensures Nulls(Rows(c, length, distinct, 0, n)) == (n + 6) / 7
  {
    hide ValueAt;
    var rows := Rows(c, length, distinct, 0, n);
    if n == 0 {
      assert rows == [];
    } else {
      NullsAreOneInSeven(c, length, distinct, n - 1);
      assert rows[..|rows| - 1] == Rows(c, length, distinct, 0, n - 1);
      assert rows[|rows| - 1] == RowAt(c, length, distinct, n - 1);
      assert (n + 6) / 7 == (n + 5) / 7 + if (n - 1) % 7 == 0 then 1 else 0;
    }
  }

  function Nulls(rows: seq<Option<Value>>): nat {
    if rows == [] then 0 else Nulls(rows[..|rows| - 1]) + if rows[|rows| - 1].None? then 1 else 0
  }

  // What an array stands for

  ghost predicate ValidKeys(a: DictionaryArray) {
    forall i :: 0 <= i < |a.keys| ==> a.keys[i].Some? ==> a.keys[i].value < |a.values|
  }

  function Decoded(a: DictionaryArray): seq<Option<Value>>
    requires ValidKeys(a)
  {
    seq(|a.keys|, i requires 0 <= i < |a.keys| => if a.keys[i].None? then None else Some(a.values[a.keys[i].value]))
  }

  ghost predicate AllValid(batches: seq<DictionaryArray>) {
    forall a <- batches :: ValidKeys(a)
  }

  function DecodedAll(batches: seq<DictionaryArray>): seq<Option<Value>>
    requires AllValid(batches)
  {
    if batches == [] then [] else DecodedAll(batches[..|batches| - 1]) + Decoded(batches[|batches| - 1])
  }

  /** The row of a column, said without arrays. */
  function RowAt(c: Column, length: Option<nat>, distinct: nat, row: nat): Option<Value>
    requires distinct > 0
  {
    match KeyAt(distinct, c.nulls, row)
    case None => None
    case Some(k) => Some(ValueAt(c.lists, length, k))
  }

  function Rows(c: Column, length: Option<nat>, distinct: nat, from: nat, n: nat): seq<Option<Value>>
    requires distinct > 0
  {
    seq(n, i requires 0 <= i => RowAt(c, length, distinct, from + i))
  }

  lemma RowsAppend(c: Column, length: Option<nat>, distinct: nat, m: nat, n: nat)
    requires distinct > 0
    ensures Rows(c, length, distinct, 0, m) + Rows(c, length, distinct, m, n) == Rows(c, length, distinct, 0, m + n)
  {
    hide RowAt;
  }

  // Generating

  lemma {:induction false} KeysGiveRows(a: DictionaryArray, c: Column, length: Option<nat>, d: nat, offset: nat)
    requires d > 0 && a.values == Values(c.lists, length, d)
    requires forall i :: 0 <= i < |a.keys| ==> a.keys[i] == KeyAt(d, c.nulls, offset + i)
    ensures ValidKeys(a) && Decoded(a) == Rows(c, length, d, offset, |a.keys|)
  {
    hide ValueAt;
    var rows := Rows(c, length, d, offset, |a.keys|);
    forall i | 0 <= i < |a.keys| ensures Decoded(a)[i] == rows[i] {
      var key := KeyAt(d, c.nulls, offset + i);
      assert rows[i] == RowAt(c, length, d, offset + i);
      if key.Some? { assert a.values[key.value] == ValueAt(c.lists, length, key.value); }
    }
  }

  /** `generate_dict_with_offset` */
  method GenerateDict(c: Column, distinct: Option<nat>, length: Option<nat>, size: nat, offset: nat)
    returns (a: DictionaryArray)
    ensures |a.keys| == size && ValidKeys(a)
    ensures var d := Clamp(if distinct.Some? then distinct.value else NumDistinct(c.cardinality, size));
            Decoded(a) == Rows(c, length, d, offset, size) && |a.values| == d
  {
    hide ValueAt, NumDistinct, Clamp;
    var d := Clamp(if distinct.Some? then distinct.value else NumDistinct(c.cardinality, size));
    var keys := [];
    for i := 0 to size
      invariant |keys| == i && forall k :: 0 <= k < i ==> keys[k] == KeyAt(d, c.nulls, offset + k)
    {
      var row := offset + i;
      if c.nulls && row % NULL_EVERY == 0 { keys := keys + [None]; } else { keys := keys + [Some(row % d)]; }
    }
    a := DictionaryArray(keys, Values(c.lists, length, d));
    KeysGiveRows(a, c, length, d, offset);
  }

  function Slice(a: DictionaryArray, from: nat, n: nat): DictionaryArray
    requires from + n <= |a.keys|
  {
    DictionaryArray(a.keys[from..from + n], a.values)
  }

  /** How many values a column of this configuration has. */
  function Distinct(config: Config, c: Column): nat {
    Clamp(if config.distinct.Some? then config.distinct.value else NumDistinct(c.cardinality, config.rows))
  }

  function Problem(config: Config): Option<Error> {
    if config.rows == 0 then Some(NoRows)
    else if config.distinct == Some(0) then Some(NoValues)
    else if config.distinct.Some? && config.distinct.value > config.rows then Some(MoreValuesThanRows)
    else if config.distinct.Some? && config.distinct.value > MAX_KEY then Some(TooManyValues)
    else if config.batchSize == Some(0) then Some(NoBatchSize)
    else if !config.dictionary && config.perBatch then Some(NotADictionary)
    else None
  }

  /** What is accepted, and what each error means. */
  lemma ConfigIsAccepted(config: Config)
    ensures Problem(config) == None <==>
            && config.rows > 0
            && (config.distinct.Some? ==> 1 <= config.distinct.value <= config.rows)
            && (config.distinct.Some? ==> config.distinct.value <= 2147483647)
            && (config.batchSize.Some? ==> config.batchSize.value >= 1)
            && (config.perBatch ==> config.dictionary)
    ensures Problem(config) == Some(NoRows) <==> config.rows == 0
    ensures Problem(config) == Some(NoValues) <==> config.rows > 0 && config.distinct == Some(0)
    ensures Problem(config) == Some(MoreValuesThanRows) <==>
            config.rows > 0 && config.distinct.Some? && config.distinct.value > config.rows
    ensures Problem(config) == Some(NotADictionary) ==> config.perBatch && !config.dictionary
    ensures Problem(config) == Some(NoBatchSize) ==> config.batchSize == Some(0)
    ensures Problem(config) == Some(TooManyValues) ==>
              config.distinct.Some? && 2147483647 < config.distinct.value <= config.rows
  {
  }

  /** The number of values that is asked for is the number of values there are. */
  lemma DistinctIsGiven(config: Config, c: Column)
    requires Problem(config) == None && config.distinct.Some?
    ensures Distinct(config, c) == config.distinct.value
  {
    hide Problem, Clamp;
    ConfigIsAccepted(config);
    ClampIs(config.distinct.value);
  }

  /** The sizes of batches that together have `rows` rows: full ones, and what is left. */
  ghost predicate Sized(batches: seq<DictionaryArray>, batchSize: nat, rows: nat) {
    forall i :: 0 <= i < |batches| ==> i * batchSize < rows && |batches[i].keys| == Min(batchSize, rows - i * batchSize)
  }

  /** `make_record_batches`, for one column: batch by batch or in slices, the rows are the same. */
  method MakeBatches(config: Config, c: Column) returns (r: Result<seq<DictionaryArray>, Error>)
    ensures match Problem(config)
            case Some(e) => r == Err(e)
            case None =>
              && r.Ok? && AllValid(r.value)
              && DecodedAll(r.value) == Rows(c, config.valueLength, Distinct(config, c), 0, config.rows)
              && Sized(r.value, if config.batchSize.Some? then config.batchSize.value else config.rows, config.rows)
              && (forall a <- r.value :: |a.values| == Distinct(config, c))
  {
    hide Filled, NumDistinct, Clamp;
    var problem := Problem(config);
    if problem.Some? { return Err(problem.value); }
    var size, length := config.rows, config.valueLength;
    var batchSize := if config.batchSize.Some? then config.batchSize.value else size;
    var distinct := if config.distinct.Some? then config.distinct.value else NumDistinct(c.cardinality, size);
    ghost var d := Distinct(config, c);
    var batches: seq<DictionaryArray> := [];
    var offset := 0;
    FilledNone(c, length, d, batchSize, size);
    if config.dictionary && config.perBatch {
      while offset < size
        invariant offset == |batches| * batchSize && Filled(c, length, d, batchSize, size, batches)
        decreases size - offset
      {
        var n := Min(batchSize, size - offset);
        var batch := GenerateDict(c, Some(distinct), length, n, offset);
        FilledOneMore(c, length, d, batchSize, size, batches, batch);
        batches := batches + [batch];
        offset := offset + batchSize;
      }
    } else {
      var whole := GenerateDict(c, Some(distinct), length, size, 0);
      while offset < size
        invariant offset == |batches| * batchSize && Filled(c, length, d, batchSize, size, batches)
        decreases size - offset
      {
        var n := Min(batchSize, size - offset);
        var batch := Slice(whole, offset, n);
        SliceRows(whole, c, length, d, offset, n);
        FilledOneMore(c, length, d, batchSize, size, batches, batch);
        batches := batches + [batch];
        offset := offset + batchSize;
      }
    }
    FilledAll(c, length, d, batchSize, size, batches);
    return Ok(batches);
  }

  /** The batches so far hold the rows so far. */
  ghost predicate Filled(c: Column, length: Option<nat>, d: nat, batchSize: nat, size: nat,
                         batches: seq<DictionaryArray>)
    requires d > 0
  {
    && AllValid(batches) && DecodedAll(batches) == Rows(c, length, d, 0, Min(|batches| * batchSize, size))
    && Sized(batches, batchSize, size) && forall a <- batches :: |a.values| == d
  }

  lemma NextStart(n: nat, batchSize: nat)
    ensures (n + 1) * batchSize == n * batchSize + batchSize
  {
  }

  lemma SizedOneMore(batches: seq<DictionaryArray>, a: DictionaryArray, batchSize: nat, size: nat)
    requires Sized(batches, batchSize, size) && |batches| * batchSize < size
    requires |a.keys| == Min(batchSize, size - |batches| * batchSize)
    ensures Sized(batches + [a], batchSize, size)
  {
    hide Min;
    var all := batches + [a];
    forall i | 0 <= i < |all| ensures i * batchSize < size && |all[i].keys| == Min(batchSize, size - i * batchSize) {
      if i < |batches| {
        assert all[i] == batches[i];
      } else {
        assert all[i] == a && i == |batches|;
      }
    }
  }

  lemma FilledOneMore(c: Column, length: Option<nat>, d: nat, batchSize: nat, size: nat, batches: seq<DictionaryArray>,
                      a: DictionaryArray)
    requires d > 0 && Filled(c, length, d, batchSize, size, batches) && |batches| * batchSize < size
    requires |a.keys| == Min(batchSize, size - |batches| * batchSize) && |a.values| == d && ValidKeys(a)
    requires Decoded(a) == Rows(c, length, d, |batches| * batchSize, |a.keys|)
    ensures Filled(c, length, d, batchSize, size, batches + [a])
    ensures |batches + [a]| * batchSize == |batches| * batchSize + batchSize
  {
    hide Rows, Decoded, DecodedAll, ValidKeys, Sized;
    NextStart(|batches|, batchSize);
    RowsAppend(c, length, d, |batches| * batchSize, |a.keys|);
    DecodedOneMore(batches, a);
    SizedOneMore(batches, a, batchSize, size);
  }

  lemma FilledAll(c: Column, length: Option<nat>, d: nat, batchSize: nat, size: nat, batches: seq<DictionaryArray>)
    requires d > 0 && Filled(c, length, d, batchSize, size, batches) && |batches| * batchSize >= size
    ensures AllValid(batches) && DecodedAll(batches) == Rows(c, length, d, 0, size)
    ensures Sized(batches, batchSize, size) && forall a <- batches :: |a.values| == d
  {
  }

  lemma FilledNone(c: Column, length: Option<nat>, d: nat, batchSize: nat, size: nat)
    requires d > 0
    ensures Filled(c, length, d, batchSize, size, [])
  {
    NoRowsYet(c, length, d);
  }

  lemma NoRowsYet(c: Column, length: Option<nat>, distinct: nat)
    requires distinct > 0
    ensures Rows(c, length, distinct, 0, 0) == []
  {
  }

  lemma DecodedOneMore(batches: seq<DictionaryArray>, a: DictionaryArray)
    requires AllValid(batches) && ValidKeys(a)
    ensures AllValid(batches + [a]) && DecodedAll(batches + [a]) == DecodedAll(batches) + Decoded(a)
  {
    hide Decoded;
    assert (batches + [a])[..|batches + [a]| - 1] == batches;
  }

  lemma SliceRows(a: DictionaryArray, c: Column, length: Option<nat>, distinct: nat, from: nat, n: nat)
    requires distinct > 0 && ValidKeys(a) && from + n <= |a.keys|
    requires Decoded(a) == Rows(c, length, distinct, 0, |a.keys|)
    ensures ValidKeys(Slice(a, from, n)) && Decoded(Slice(a, from, n)) == Rows(c, length, distinct, from, n)
  {
    hide RowAt;
    var part := Slice(a, from, n);
    forall i | 0 <= i < n
      ensures part.keys[i] == a.keys[from + i]
    {
    }
    forall i | 0 <= i < n
      ensures Decoded(part)[i] == Rows(c, length, distinct, from, n)[i]
    {
      assert Decoded(a)[from + i] == Rows(c, length, distinct, 0, |a.keys|)[from + i];
    }
  }

  // Groups

  /** The values of a column differ. */
  lemma ValuesDiffer(lists: bool, length: Option<nat>, i: nat, j: nat)
    requires ValueAt(lists, length, i) == ValueAt(lists, length, j)
    ensures i == j
  {
    hide ValueAt, D.Show, D.IsDigit;
    var s := FirstString(lists, length, i);
    var t := FirstString(lists, length, j);
    var x := ValueStart(lists, length, i);
    var y := ValueStart(lists, length, j);
    SameStart("value_", D.Show(i) + x, D.Show(j) + y);
    Q.DigitsEndFirst(D.Show(i), x, D.Show(j), y);
    Q.DigitsEndFirst(D.Show(j), y, D.Show(i), x);
    SameLength(D.Show(i), x, D.Show(j), y);
    D.ShowInjective(i, j);
  }

  lemma SameStart(p: string, s: string, t: string)
    requires p + s == p + t
    ensures s == t
  {
    assert (p + s)[|p|..] == s && (p + t)[|p|..] == t;
  }

  lemma SameLength(a: string, x: string, b: string, y: string)
    requires a + x == b + y && |a| == |b|
    ensures a == b
  {
    assert (a + x)[..|a|] == a && (b + y)[..|b|] == b;
  }

  function Tail(lists: bool): string {
    if lists then "_" + D.Show(0) else ""
  }

  /** The first string of a value. */
  function FirstString(lists: bool, length: Option<nat>, i: nat): (s: string)
    ensures ValueAt(lists, length, i) != [] && ValueAt(lists, length, i)[0] == s
  {
    assert "value_" + D.Show(i) + "" == "value_" + D.Show(i);
    assert "value_" + D.Show(i) + ("_" + D.Show(0)) == "value_" + D.Show(i) + "_" + D.Show(0);
    Padded("value_" + D.Show(i) + Tail(lists), length)
  }

  lemma ValueStart(lists: bool, length: Option<nat>, i: nat) returns (rest: string)
    ensures FirstString(lists, length, i) == "value_" + (D.Show(i) + rest) && (rest != "" ==> !D.IsDigit(rest[0]))
  {
    hide D.Show;
    var value, s := "value_" + D.Show(i) + Tail(lists), FirstString(lists, length, i);
    assert |value| <= |s| && s[..|value|] == value;
    rest := Tail(lists) + s[|value|..];
    assert s == value + s[|value|..];
    assert value == "value_" + (D.Show(i) + Tail(lists));
  }

  function Occurrences(rows: seq<Option<Value>>, v: Value): nat {
    if rows == [] then 0
    else Occurrences(rows[..|rows| - 1], v) + if rows[|rows| - 1] == Some(v) then 1 else 0
  }

  /** Without nulls a value is in one of every `distinct` rows, rounded up for the first ones. */
  lemma {:induction false} GroupSize(c: Column, length: Option<nat>, distinct: nat, n: nat, k: nat)
    requires !c.nulls && k < distinct
    ensures Occurrences(Rows(c, length, distinct, 0, n), ValueAt(c.lists, length, k))
            == n / distinct + if k < n % distinct then 1 else 0
  {
    hide ValueAt;
    var rows := Rows(c, length, distinct, 0, n);
    if n == 0 {
      assert rows == [] && 0 / distinct == 0 && 0 % distinct == 0;
    } else {
      GroupSize(c, length, distinct, n - 1, k);
      assert rows[..|rows| - 1] == Rows(c, length, distinct, 0, n - 1);
      var last := (n - 1) % distinct;
      assert rows[|rows| - 1] == Some(ValueAt(c.lists, length, last));
      if ValueAt(c.lists, length, last) == ValueAt(c.lists, length, k) { ValuesDiffer(c.lists, length, last, k); }
      if distinct > 1 { V.AddWraps(n - 1, 1, distinct); }
    }
  }
}
