/** Reading the annealer's answer: the integer conversion of the reported
    configuration, its layout as a taxi-by-user grid, the two constraint-violation
    counts and the taxi number of each user. These are the value-level parts of
    `Response`; the class itself lives in module Modeling. */
module Decoding {
  import opened Basics
  import opened Qubo

  // ---------------------------------------------------------------------------
  // int() on the keys and values of the configuration

  /** A configuration key or value as it arrives in the JSON reply. */
  datatype RawValue = Flag(b: bool) | Integer(n: int) | Text(s: string)

  predicate IsDigit(ch: char)
  {
    '0' <= ch <= '9'
  }

  predicate AllDigits(s: string)
  {
    forall i :: 0 <= i < |s| ==> IsDigit(s[i])
  }

  function DigitValue(ch: char): nat
    requires IsDigit(ch)
  {
    ch as int - '0' as int
  }

  function DigitChar(d: nat): (ch: char)
    requires d < 10
    ensures IsDigit(ch) && DigitValue(ch) == d
  {
    ('0' as int + d) as char
  }

  /** Value of a string of decimal digits, most significant digit first. */
  function DigitsValue(s: string): nat
    requires AllDigits(s)
  {
    if s == [] then 0 else 10 * DigitsValue(s[..|s| - 1]) + DigitValue(s[|s| - 1])
  }

  /** `int(s)` on a string: an optional sign followed by one or more decimal digits;
      anything else raises, which is `None` here. */
  function ParseDecimal(s: string): Option<int>
  {
    if |s| > 0 && (s[0] == '-' || s[0] == '+') then
      var digits := s[1..];
      if |digits| > 0 && AllDigits(digits) then
        Some(if s[0] == '-' then -(DigitsValue(digits) as int) else DigitsValue(digits))
      else None
    else if |s| > 0 && AllDigits(s) then Some(DigitsValue(s))
    else None
  }

  /** What `int()` accepts: a plain digit string is its decimal value; anything
      accepted starts with a digit or a sign; the result is negative only after a
      minus sign, and never positive after one. */
  lemma ParseDecimalForm(s: string)
    ensures |s| > 0 && AllDigits(s) ==> ParseDecimal(s) == Some(DigitsValue(s) as int)
    ensures ParseDecimal(s).Some? ==> |s| > 0 && (IsDigit(s[0]) || s[0] == '-' || s[0] == '+')
    ensures ParseDecimal(s).Some? && ParseDecimal(s).value < 0 ==> s[0] == '-'
    ensures ParseDecimal(s).Some? && s[0] == '-' ==> ParseDecimal(s).value <= 0
  {
  }

  /** A character other than a digit anywhere after the first makes `int()` raise. */
  lemma ParseDecimalRejects(s: string, i: nat)
    requires 0 < i < |s| && !IsDigit(s[i])
    ensures ParseDecimal(s).None?
  {
    if |s| > 0 && (s[0] == '-' || s[0] == '+') {
      assert !IsDigit(s[1..][i - 1]);
    }
  }

  /** `str(n)` for a natural number: its shortest decimal numeral. */
  function ShowNat(n: nat): (s: string)
    ensures |s| > 0 && AllDigits(s)
  {
    if n < 10 then [DigitChar(n)] else ShowNat(n / 10) + [DigitChar(n % 10)]
  }

  /** `str(n)`, the text the annealer uses for a variable index. */
  function ShowDecimal(n: int): string
  {
    if n < 0 then "-" + ShowNat(-n) else ShowNat(n)
  }

  lemma {:induction false} ShowNatValue(n: nat)
    ensures DigitsValue(ShowNat(n)) == n
  {
    if n >= 10 {
      var s := ShowNat(n);
      assert s[..|s| - 1] == ShowNat(n / 10);
      ShowNatValue(n / 10);
    }
  }

  /** `int(str(n)) == n`: every key written as a decimal numeral converts back to the
      index it names. */
  lemma ParseShowDecimal(n: int)
    ensures ParseDecimal(ShowDecimal(n)) == Some(n)
  {
    if n < 0 {
      var s := ShowDecimal(n);
      assert s[1..] == ShowNat(-n);
      ShowNatValue(-n);
    } else {
      ShowNatValue(n);
    }
  }

  /** `int(v)` for a key or value of the reply: `int(True) == 1`, `int(False) == 0`,
      a number is itself, a string is parsed. */
  function ToInt(v: RawValue): (r: Option<int>)
    ensures !v.Text? ==> r.Some?
    ensures v.Flag? ==> (r.value == 1 <==> v.b) && (r.value == 0 <==> !v.b)
    ensures v.Integer? ==> r.value == v.n
    ensures v.Text? ==> r == ParseDecimal(v.s)
  {
    match v
    case Flag(b) => Some(if b then 1 else 0)
    case Integer(n) => Some(n)
    case Text(s) => ParseDecimal(s)
  }

  // ---------------------------------------------------------------------------
  // The converted configuration: a dict with integer keys, in insertion order

  /** A Python dict from int to int, as its items in iteration (insertion) order. */
  type Config = seq<(int, int)>

  predicate UniqueKeys(d: Config)
  {
    forall i, j :: 0 <= i < j < |d| ==> d[i].0 != d[j].0
  }

  /** Looking `key` up in the dict that `{int(k): int(v) for k, v in config.items()}`
      builds: the value of the item with that key, or `None` when there is none. */
  function Lookup(d: Config, key: int): (r: Option<int>)
    ensures r.None? <==> forall i :: 0 <= i < |d| ==> d[i].0 != key
  {
    if d == [] then None
    else if d[0].0 == key then Some(d[0].1)
    else Lookup(d[1..], key)
  }

  /** Each key of a dict finds its own value. */
  lemma {:induction false} LookupAt(d: Config, i: nat)
    requires UniqueKeys(d) && i < |d|
    ensures Lookup(d, d[i].0) == Some(d[i].1)
  {
    if i > 0 {
      LookupAt(d[1..], i - 1);
    }
  }

  /** `d[key] = value`: a key already present keeps its position and takes the new
      value; a new key goes last. */
  function Put(d: Config, key: int, value: int): (e: Config)
    requires UniqueKeys(d)
    ensures Lookup(d, key).None? ==> e == d + [(key, value)]
    ensures Lookup(d, key).Some? ==>
      |e| == |d| && forall i :: 0 <= i < |d| ==> e[i] == if d[i].0 == key then (key, value) else d[i]
  {
    if d == [] then [(key, value)]
    else if d[0].0 == key then [(key, value)] + d[1..]
    else [d[0]] + Put(d[1..], key, value)
  }

  /** After `d[key] = value` the keys are still distinct, `key` finds `value`, and
      every other key finds what it found before. */
  lemma PutLookup(d: Config, key: int, value: int)
    requires UniqueKeys(d)
    ensures UniqueKeys(Put(d, key, value))
    ensures Lookup(Put(d, key, value), key) == Some(value)
    ensures forall k :: k != key ==> Lookup(Put(d, key, value), k) == Lookup(d, k)
  {
    var e := Put(d, key, value);
    PutKeys(d, key, value);
    var j: nat :| j < |e| && e[j] == (key, value);
    LookupAt(e, j);
    forall k | k != key
      ensures Lookup(e, k) == Lookup(d, k)
    {
      if i :| 0 <= i < |d| && d[i].0 == k {
        LookupAt(d, i);
        assert e[i] == d[i];
        LookupAt(e, i);
      } else {
        assert forall i :: 0 <= i < |e| ==> e[i].0 != k;
      }
    }
  }

  /** Helper: the keys after `d[key] = value` are those of d, then `key` when it is new. */
  lemma PutKeys(d: Config, key: int, value: int)
    requires UniqueKeys(d)
    ensures UniqueKeys(Put(d, key, value))
    ensures exists j :: 0 <= j < |Put(d, key, value)| && Put(d, key, value)[j] == (key, value)
    ensures forall i :: 0 <= i < |Put(d, key, value)| ==>
      Put(d, key, value)[i].0 == key || (i < |d| && Put(d, key, value)[i] == d[i])
  {
    var e := Put(d, key, value);
    if Lookup(d, key).None? {
      assert e[|d|] == (key, value);
      forall i, j | 0 <= i < j < |e|
        ensures e[i].0 != e[j].0
      {
        assert e[i] == d[i];
      }
    } else {
      var j :| 0 <= j < |d| && d[j].0 == key;
      assert e[j] == (key, value);
      assert forall i :: 0 <= i < |e| ==> e[i].0 == d[i].0;
    }
  }

  predicate Converts(item: (string, RawValue))
  {
    ParseDecimal(item.0).Some? && ToInt(item.1).Some?
  }

  function KeyOf(item: (string, RawValue)): int
    requires Converts(item)
  {
    ParseDecimal(item.0).value
  }

  function ValueOf(item: (string, RawValue)): int
    requires Converts(item)
  {
    ToInt(item.1).value
  }

  /** `{int(k): int(v) for k, v in config.items()}`; `None` when some key or value
      is not an integer. */
  function Configuration(raw: seq<(string, RawValue)>): (config: Option<Config>)
    ensures config.Some? ==> UniqueKeys(config.value) && |config.value| <= |raw|
  {
    if raw == [] then Some([])
    else
      var last := raw[|raw| - 1];
      match Configuration(raw[..|raw| - 1])
      case None => None
      case Some(d) =>
        if Converts(last) then
          PutLookup(d, KeyOf(last), ValueOf(last));
          Some(Put(d, KeyOf(last), ValueOf(last)))
        else None
  }

  /** The conversion fails exactly when some key or value is not an integer. */
  lemma {:induction false} ConfigurationSucceeds(raw: seq<(string, RawValue)>)
    ensures Configuration(raw).Some? <==> forall i :: 0 <= i < |raw| ==> Converts(raw[i])
  {
    if raw != [] {
      var prefix := raw[..|raw| - 1];
      ConfigurationSucceeds(prefix);
      var last := raw[|raw| - 1];
      if Configuration(raw).Some? {
        assert Configuration(prefix).Some? && Converts(last);
        assert raw == prefix + [last];
      } else if Configuration(prefix).Some? {
        assert !Converts(raw[|raw| - 1]);
      } else {
        var i :| 0 <= i < |prefix| && !Converts(prefix[i]);
        assert raw[i] == prefix[i];
      }
    }
  }

  /** When the keys convert to distinct integers, the converted dict holds every
      item, in the order the reply lists them. */
  lemma {:induction false} ConfigurationKeepsOrder(raw: seq<(string, RawValue)>)
    requires forall i :: 0 <= i < |raw| ==> Converts(raw[i])
    requires forall i, j :: 0 <= i < j < |raw| ==> KeyOf(raw[i]) != KeyOf(raw[j])
    ensures Configuration(raw).Some?
    ensures |Configuration(raw).value| == |raw|
    ensures forall i :: 0 <= i < |raw| ==> Configuration(raw).value[i] == (KeyOf(raw[i]), ValueOf(raw[i]))
  {
    if raw != [] {
      var prefix := raw[..|raw| - 1];
      var last := raw[|raw| - 1];
      ConfigurationKeepsOrder(prefix);
      var d := Configuration(prefix).value;
      forall i | 0 <= i < |d|
        ensures d[i].0 != KeyOf(last)
      {
        assert d[i].0 == KeyOf(raw[i]);
      }
    }
  }

  // ---------------------------------------------------------------------------
  // The grid of `to_array`

  /** A `rows` x `cols` integer matrix; in `to_array` row k is taxi k and column u is user u. */
  datatype Grid = Grid(rows: nat, cols: nat, cells: seq<seq<int>>)

  predicate Shaped(g: Grid)
  {
    |g.cells| == g.rows && forall k :: 0 <= k < g.rows ==> |g.cells[k]| == g.cols
  }

  function Values(d: Config): (vs: seq<int>)
    ensures |vs| == |d|
  {
    seq(|d|, i requires 0 <= i < |d| => d[i].1)
  }

  /** `to_array`: the first taxi*user values in dict order, laid out row-major as
      `taxi` rows of `user` columns. */
  function ToGrid(d: Config, user: nat, taxi: nat): (g: Grid)
    requires |d| >= taxi * user
    ensures Shaped(g) && g.rows == taxi && g.cols == user
    ensures forall k, u :: 0 <= k < taxi && 0 <= u < user ==>
      RowMajor(k, u, user) < |d| && g.cells[k][u] == d[RowMajor(k, u, user)].1
  {
    var flat := Values(d)[..taxi * user];
    var cells := Reshape(flat, taxi, user);
    assert forall k, u :: 0 <= k < taxi && 0 <= u < user ==> cells[k][u] == d[RowMajor(k, u, user)].1;
    Grid(taxi, user, cells)
  }

  /** When the reply lists the variable indices 0, 1, 2, ... in order, cell (k, u)
      of the grid is the annealer's value for q[u,k], "user u rides taxi k". */
  lemma GridCellIsAssignment(d: Config, user: nat, taxi: nat, k: nat, u: nat)
    requires |d| >= taxi * user && forall i :: 0 <= i < |d| ==> d[i].0 == i
    requires k < taxi && u < user
    ensures Lookup(d, Index(user, taxi, Assign(k, u))) == Some(ToGrid(d, user, taxi).cells[k][u])
  {
    var r := RowMajor(k, u, user);
    assert Index(user, taxi, Assign(k, u)) == r;
    assert r < |d|;
    LookupAt(d, r);
  }

  /** Every cell of the grid is 0 or 1. */
  predicate IsBits(g: Grid)
  {
    Shaped(g) &&
    forall k, u :: 0 <= k < g.rows && 0 <= u < g.cols ==> g.cells[k][u] == 0 || g.cells[k][u] == 1
  }

  /** A converted dict whose values are all 0 or 1 gives a 0/1 grid. */
  lemma BitValuesGiveBits(d: Config, user: nat, taxi: nat)
    requires |d| >= taxi * user
    requires forall i :: 0 <= i < |d| ==> d[i].1 == 0 || d[i].1 == 1
    ensures IsBits(ToGrid(d, user, taxi))
  {
  }

  /** A reply whose configuration values are all JSON booleans gives a 0/1 grid. */
  lemma FlagsGiveBits(raw: seq<(string, RawValue)>, user: nat, taxi: nat)
    requires forall i :: 0 <= i < |raw| ==> raw[i].1.Flag?
    requires Configuration(raw).Some? && |Configuration(raw).value| >= taxi * user
    ensures IsBits(ToGrid(Configuration(raw).value, user, taxi))
  {
    FlagValues(raw);
    BitValuesGiveBits(Configuration(raw).value, user, taxi);
  }

  lemma {:induction false} FlagValues(raw: seq<(string, RawValue)>)
    requires forall i :: 0 <= i < |raw| ==> raw[i].1.Flag?
    requires Configuration(raw).Some?
    ensures forall i :: 0 <= i < |Configuration(raw).value| ==>
      Configuration(raw).value[i].1 == 0 || Configuration(raw).value[i].1 == 1
  {
    if raw != [] {
      var prefix := raw[..|raw| - 1];
      FlagValues(prefix);
      var d := Configuration(prefix).value;
      var last := raw[|raw| - 1];
      var e := Put(d, KeyOf(last), ValueOf(last));
      assert Configuration(raw).value == e;
      forall i | 0 <= i < |e|
        ensures e[i].1 == 0 || e[i].1 == 1
      {
        if i < |d| {
          assert e[i] == d[i] || e[i].1 == ValueOf(last);
        }
      }
    }
  }

  // ---------------------------------------------------------------------------
  // check_penalty

  /** Sum of column u over rows `from` and below (`sum(axis=0)`). */
  function ColumnSum(g: Grid, u: nat, from: nat): (sum: int)
    requires Shaped(g) && u < g.cols && from <= g.rows
    ensures IsBits(g) ==> 0 <= sum <= g.rows - from
    decreases g.rows - from
  {
    if from == g.rows then 0 else g.cells[from][u] + ColumnSum(g, u, from + 1)
  }

  /** Sum of row k (`sum(axis=1)`). */
  function RowSum(g: Grid, k: nat): (sum: int)
    requires Shaped(g) && k < g.rows
    ensures IsBits(g) ==> 0 <= sum <= g.cols
  {
    BitSumBound(g.cells[k]);
    Sum(g.cells[k])
  }

  /** A sequence of zeros and ones sums to at most its length. */
  lemma {:induction false} BitSumBound(row: seq<int>)
    ensures (forall u :: 0 <= u < |row| ==> row[u] == 0 || row[u] == 1) ==> 0 <= Sum(row) <= |row|
  {
    if row != [] && forall u :: 0 <= u < |row| ==> row[u] == 0 || row[u] == 1 {
      BitSumBound(row[1..]);
      assert forall u :: 0 <= u < |row[1..]| ==> row[1..][u] == row[u + 1];
    }
  }

  /** Number of the first n columns that do not sum to 1. */
  function BadColumns(g: Grid, n: nat): (count: nat)
    requires Shaped(g) && n <= g.cols
    ensures count <= n
    ensures count == 0 ==> forall u :: 0 <= u < n ==> ColumnSum(g, u, 0) == 1
    ensures (forall u :: 0 <= u < n ==> ColumnSum(g, u, 0) == 1) ==> count == 0
  {
    if n == 0 then 0
    else BadColumns(g, n - 1) + (if ColumnSum(g, n - 1, 0) != 1 then 1 else 0)
  }

  /** Number of the first n rows that sum to 5 or more. */
  function FullRows(g: Grid, n: nat): (count: nat)
    requires Shaped(g) && n <= g.rows
    ensures count <= n
    ensures count == 0 ==> forall k :: 0 <= k < n ==> RowSum(g, k) < 5
    ensures (forall k :: 0 <= k < n ==> RowSum(g, k) < 5) ==> count == 0
  {
    if n == 0 then 0
    else FullRows(g, n - 1) + (if RowSum(g, n - 1) >= 5 then 1 else 0)
  }

  /** Every user is in exactly one taxi and every taxi holds fewer than five users. */
  predicate Feasible(g: Grid)
    requires Shaped(g)
  {
    (forall u :: 0 <= u < g.cols ==> ColumnSum(g, u, 0) == 1) &&
    (forall k :: 0 <= k < g.rows ==> RowSum(g, k) < 5)
  }

  /** `check_penalty`: (columns whose sum is not 1, rows whose sum is 5 or more); on a
      0/1 grid, (users not in exactly one taxi, taxis holding five or more users). */
  function Violations(g: Grid): (v: (nat, nat))
    requires Shaped(g)
    ensures v.0 <= g.cols && v.1 <= g.rows
    ensures v.0 == 0 ==> forall u :: 0 <= u < g.cols ==> ColumnSum(g, u, 0) == 1
    ensures (forall u :: 0 <= u < g.cols ==> ColumnSum(g, u, 0) == 1) ==> v.0 == 0
    ensures v.1 == 0 ==> forall k :: 0 <= k < g.rows ==> RowSum(g, k) < 5
    ensures (forall k :: 0 <= k < g.rows ==> RowSum(g, k) < 5) ==> v.1 == 0
    ensures v == (0, 0) <==> Feasible(g)
  {
    (BadColumns(g, g.cols), FullRows(g, g.rows))
  }

  // ---------------------------------------------------------------------------
  // group

  /** The rows at or below `from` whose cell in column u is 1, ascending. */
  function OnesInColumn(g: Grid, u: nat, from: nat): seq<nat>
    requires Shaped(g) && u < g.cols && from <= g.rows
    decreases g.rows - from
  {
    if from == g.rows then []
    else (if g.cells[from][u] == 1 then [from] else []) + OnesInColumn(g, u, from + 1)
  }

  /** The rows listed are exactly those at or below `from` holding a 1 in column u. */
  lemma {:induction false} OnesInColumnShape(g: Grid, u: nat, from: nat)
    requires Shaped(g) && u < g.cols && from <= g.rows
    ensures forall i :: 0 <= i < |OnesInColumn(g, u, from)| ==>
      from <= OnesInColumn(g, u, from)[i] < g.rows && g.cells[OnesInColumn(g, u, from)[i]][u] == 1
    ensures forall k :: from <= k < g.rows && g.cells[k][u] == 1 ==> k in OnesInColumn(g, u, from)
    decreases g.rows - from
  {
    if from < g.rows {
      OnesInColumnShape(g, u, from + 1);
      var head := if g.cells[from][u] == 1 then [from] else [];
      assert OnesInColumn(g, u, from) == head + OnesInColumn(g, u, from + 1);
    }
  }

  /** `np.where(qubit_array.T == 1)[1]` from column `from` on: the transposed grid is
      read row-major, so users in order and, within a user, taxis in order; each
      cell equal to 1 contributes its taxi number. */
  function GroupNumbers(g: Grid, from: nat): (ns: seq<nat>)
    requires Shaped(g) && from <= g.cols
    ensures forall i :: 0 <= i < |ns| ==> ns[i] < g.rows
    decreases g.cols - from
  {
    if from == g.cols then []
    else
      OnesInColumnShape(g, from, 0);
      OnesInColumn(g, from, 0) + GroupNumbers(g, from + 1)
  }

  /** `group`: every number it gives is a row of the grid, that is, a taxi. */
  function Group(g: Grid): (ns: seq<nat>)
    requires Shaped(g)
    ensures forall i :: 0 <= i < |ns| ==> ns[i] < g.rows
  {
    GroupNumbers(g, 0)
  }

  /** In a 0/1 column the number of ones is the column sum. */
  lemma {:induction false} OnesCountIsColumnSum(g: Grid, u: nat, from: nat)
    requires IsBits(g) && u < g.cols && from <= g.rows
    ensures |OnesInColumn(g, u, from)| == ColumnSum(g, u, from)
    decreases g.rows - from
  {
    if from < g.rows {
      OnesCountIsColumnSum(g, u, from + 1);
    }
  }

  /** The column of every user from `from` on sums to 1 in a 0/1 grid: then the group
      numbers are one per user, each the unique taxi whose cell holds the 1. */
  lemma {:induction false} GroupNumbersAssign(g: Grid, from: nat)
    requires IsBits(g) && from <= g.cols
    requires forall u :: from <= u < g.cols ==> ColumnSum(g, u, 0) == 1
    ensures |GroupNumbers(g, from)| == g.cols - from
    ensures forall i :: 0 <= i < g.cols - from ==> OnlyOneIn(g, from + i, GroupNumbers(g, from)[i])
    decreases g.cols - from
  {
    if from < g.cols {
      var k := SingleOne(g, from);
      GroupNumbersAssign(g, from + 1);
      var rest := GroupNumbers(g, from + 1);
      var ns := GroupNumbers(g, from);
      assert ns == [k] + rest;
      forall i | 0 < i < g.cols - from
        ensures OnlyOneIn(g, from + i, ns[i])
      {
        assert ns[i] == rest[i - 1] && from + i == (from + 1) + (i - 1);
      }
    }
  }

  /** Row k holds the only 1 of column u. */
  predicate OnlyOneIn(g: Grid, u: nat, k: nat)
    requires Shaped(g) && u < g.cols
  {
    k < g.rows && g.cells[k][u] == 1 &&
    forall k2 :: 0 <= k2 < g.rows && g.cells[k2][u] == 1 ==> k2 == k
  }

  /** Helper: a 0/1 column that sums to 1 has its 1 in exactly one row k, and the
      ones of that column are just [k]. */
  lemma SingleOne(g: Grid, u: nat) returns (k: nat)
    requires IsBits(g) && u < g.cols && ColumnSum(g, u, 0) == 1
    ensures OnesInColumn(g, u, 0) == [k] && OnlyOneIn(g, u, k)
  {
    OnesCountIsColumnSum(g, u, 0);
    OnesInColumnShape(g, u, 0);
    var ones := OnesInColumn(g, u, 0);
    k := ones[0];
    assert ones == [k];
  }

  /** When every column of a 0/1 grid sums to 1, `group` gives one taxi number per
      user: the row holding that user's 1, below the number of taxis. */
  lemma GroupIsAssignment(g: Grid)
    requires IsBits(g)
    requires forall u :: 0 <= u < g.cols ==> ColumnSum(g, u, 0) == 1
    ensures |Group(g)| == g.cols
    ensures forall u :: 0 <= u < g.cols ==> Group(g)[u] < g.rows && g.cells[Group(g)[u]][u] == 1
    ensures forall u, k :: 0 <= u < g.cols && 0 <= k < g.rows && g.cells[k][u] == 1 ==> k == Group(g)[u]
  {
    GroupNumbersAssign(g, 0);
    forall u | 0 <= u < g.cols
      ensures g.cells[Group(g)[u]][u] == 1
      ensures forall k :: 0 <= k < g.rows && g.cells[k][u] == 1 ==> k == Group(g)[u]
    {
      assert OnlyOneIn(g, 0 + u, GroupNumbers(g, 0)[u]);
    }
  }

  /** How many entries of ns equal k. */
  function Occurrences(ns: seq<nat>, k: nat): (count: nat)
    ensures count <= |ns|
  {
    if ns == [] then 0 else (if ns[0] == k then 1 else 0) + Occurrences(ns[1..], k)
  }

  /** Helper: when ns[u] == k exactly where a 0/1 row holds a 1, k occurs in ns as
      often as the row sums to. */
  lemma {:induction false} OccurrencesMatchRow(ns: seq<nat>, row: seq<int>, k: nat)
    requires |ns| == |row|
    requires forall u :: 0 <= u < |row| ==> row[u] == 0 || row[u] == 1
    requires forall u :: 0 <= u < |ns| ==> (ns[u] == k <==> row[u] == 1)
    ensures Occurrences(ns, k) == Sum(row)
  {
    if ns != [] {
      OccurrencesMatchRow(ns[1..], row[1..], k);
    }
  }

  /** On a feasible 0/1 grid, `group` puts fewer than five users in every taxi: the
      number of users given taxi k is the sum of row k. */
  lemma TaxiCapacity(g: Grid)
    requires IsBits(g) && Feasible(g)
    ensures forall k :: 0 <= k < g.rows ==> Occurrences(Group(g), k) == RowSum(g, k) < 5
  {
    GroupIsAssignment(g);
    forall k | 0 <= k < g.rows
      ensures Occurrences(Group(g), k) == RowSum(g, k)
    {
      OccurrencesMatchRow(Group(g), g.cells[k], k);
    }
  }

  /** A clean `check_penalty` does not make `group` total on a grid that is not 0/1:
      the single column here sums to 1 through the values 2 and -1, no cell holds a 1,
      and the one user gets no taxi number. */
  lemma CleanCheckWithoutBits()
    ensures var g := Grid(2, 1, [[2], [-1]]);
      Shaped(g) && !IsBits(g) && Violations(g) == (0, 0) && Group(g) == []
  {
    var g := Grid(2, 1, [[2], [-1]]);
    assert ColumnSum(g, 0, 1) == -1;
    assert RowSum(g, 0) == 2 && RowSum(g, 1) == -1;
    assert OnesInColumn(g, 0, 1) == [];
  }
}
