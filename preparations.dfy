/** Feature preparation: each user's age from the birth date, the selected feature
    columns, and the upper-triangular matrix of weighted pairwise distances. */
module Preparations {
  import opened Basics

  datatype Date = Date(year: int, month: int, day: int)

  /** A row of the users' table: id, destination latitude and longitude, sex code, birth date. */
  datatype UserRecord = UserRecord(id: int, latitude: real, longitude: real, sex: int, birthDate: Date)

  /** A row of the table once the `age` column has been added. */
  datatype AgedRecord = AgedRecord(record: UserRecord, age: int)

  /** The four standardised feature columns of one user, in the order
      latitude, longitude, age, sex. */
  datatype Features = Features(latitude: real, longitude: real, age: real, sex: real)

  /** Python's tuple comparison `(m1, d1) < (m2, d2)`. */
  predicate MonthDayBefore(m1: int, d1: int, m2: int, d2: int)
  {
    m1 < m2 || (m1 == m2 && d1 < d2)
  }

  /** The birthday in year `born.year + years` is not after `today`. */
  predicate BirthdayReached(born: Date, today: Date, years: int)
  {
    var y := born.year + years;
    y < today.year || (y == today.year && !MonthDayBefore(today.month, today.day, born.month, born.day))
  }

  /** `calc_age`: the number of birthdays that have come by `today`. */
  function CalcAge(born: Date, today: Date): (age: int)
    ensures BirthdayReached(born, today, age) && !BirthdayReached(born, today, age + 1)
    ensures forall n :: BirthdayReached(born, today, n) && !BirthdayReached(born, today, n + 1) ==> n == age
  {
    today.year - born.year - (if MonthDayBefore(today.month, today.day, born.month, born.day) then 1 else 0)
  }

  /** `df['age'] = df['birth_date'].map(calc_age)`: every row gains its age, `today` being
      the date of the call. */
  function AddAge(rows: seq<UserRecord>, today: Date): (aged: seq<AgedRecord>)
    ensures |aged| == |rows|
    ensures forall i :: 0 <= i < |rows| ==> aged[i].record == rows[i] && aged[i].age == CalcAge(rows[i].birthDate, today)
  {
    seq(|rows|, i requires 0 <= i < |rows| => AgedRecord(rows[i], CalcAge(rows[i].birthDate, today)))
  }

  /** A column standardiser (scipy's `zscore`) returns one value per input value. */
  ghost predicate KeepsLength(zscore: seq<real> -> seq<real>)
  {
    forall column :: |zscore(column)| == |column|
  }

  /** The name of one feature column. */
  datatype Feature = Latitude | Longitude | Age | Sex

  /** The value of one feature column in a user's row. */
  function Value(row: Features, feature: Feature): real
  {
    match feature
    case Latitude => row.latitude
    case Longitude => row.longitude
    case Age => row.age
    case Sex => row.sex
  }

  /** The value of one of the four selected columns in a row of the table with ages. */
  function AgedValue(row: AgedRecord, feature: Feature): real
  {
    match feature
    case Latitude => row.record.latitude
    case Longitude => row.record.longitude
    case Age => row.age as real
    case Sex => row.record.sex as real
  }

  /** `df[column]` for one of the selected columns `f_cols`. */
  function FeatureColumn(aged: seq<AgedRecord>, feature: Feature): (c: seq<real>)
    ensures |c| == |aged| && forall j :: 0 <= j < |aged| ==> c[j] == AgedValue(aged[j], feature)
  {
    seq(|aged|, j requires 0 <= j < |aged| => AgedValue(aged[j], feature))
  }

  /** `normalize`: add the age column, then keep the four feature columns
      (latitude, longitude, age, sex), each standardised on its own with `zscore`. */
  function Normalize(rows: seq<UserRecord>, today: Date, zscore: seq<real> -> seq<real>): (features: seq<Features>)
    requires KeepsLength(zscore)
    ensures |features| == |rows|
    ensures forall i, feature :: 0 <= i < |rows| ==>
      Value(features[i], feature) == zscore(FeatureColumn(AddAge(rows, today), feature))[i]
  {
    var aged := AddAge(rows, today);
    var latitude := zscore(FeatureColumn(aged, Latitude));
    var longitude := zscore(FeatureColumn(aged, Longitude));
    var age := zscore(FeatureColumn(aged, Age));
    var sex := zscore(FeatureColumn(aged, Sex));
    seq(|rows|, i requires 0 <= i < |rows| => Features(latitude[i], longitude[i], age[i], sex[i]))
  }

  /** The age column that `normalize` standardises holds each user's `calc_age`, and the
      other three hold the table's own values. */
  lemma NormalizedColumns(rows: seq<UserRecord>, today: Date, j: nat)
    requires j < |rows|
    ensures FeatureColumn(AddAge(rows, today), Age)[j] == CalcAge(rows[j].birthDate, today) as real
    ensures FeatureColumn(AddAge(rows, today), Latitude)[j] == rows[j].latitude
    ensures FeatureColumn(AddAge(rows, today), Longitude)[j] == rows[j].longitude
    ensures FeatureColumn(AddAge(rows, today), Sex)[j] == rows[j].sex as real
  {
  }

  /** `norm_df[column].values`: one feature of every user, in row order. */
  function Column(norm: seq<Features>, feature: Feature): (c: seq<real>)
    ensures |c| == |norm| && forall i :: 0 <= i < |norm| ==> c[i] == Value(norm[i], feature)
  {
    seq(|norm|, i requires 0 <= i < |norm| => Value(norm[i], feature))
  }

  /** `d**2`. */
  function Square(d: real): real
  {
    d * d
  }

  /** `(x - y)**2`. */
  function SquaredDiff(x: real, y: real): real
  {
    Square(x - y)
  }

  /** `[(x - y)**2 for x in xs for y in ys]`. */
  function SquareDiffList(xs: seq<real>, ys: seq<real>): (d: seq<real>)
    ensures |d| == |xs| * |ys|
    ensures forall i, j :: 0 <= i < |xs| && 0 <= j < |ys| ==>
      RowMajor(i, j, |ys|) < |d| && d[RowMajor(i, j, |ys|)] == SquaredDiff(xs[i], ys[j])
    decreases |xs|
  {
    if xs == [] then []
    else
      var head := seq(|ys|, j requires 0 <= j < |ys| => SquaredDiff(xs[0], ys[j]));
      var tail := SquareDiffList(xs[1..], ys);
      MulSucc(|xs| - 1, |ys|);
      var d := head + tail;
      assert forall i, j :: 0 <= i < |xs| && 0 <= j < |ys| ==>
        RowMajor(i, j, |ys|) < |d| && d[RowMajor(i, j, |ys|)] == SquaredDiff(xs[i], ys[j]) by {
        forall i, j | 0 <= i < |xs| && 0 <= j < |ys|
          ensures RowMajor(i, j, |ys|) < |d| && d[RowMajor(i, j, |ys|)] == SquaredDiff(xs[i], ys[j])
        {
          if i == 0 {
            assert RowMajor(0, j, |ys|) == j;
          } else {
            MulSucc(i - 1, |ys|);
            assert RowMajor(i, j, |ys|) == |ys| + RowMajor(i - 1, j, |ys|);
            assert xs[1..][i - 1] == xs[i];
          }
        }
      }
      d
  }

  /** `m` has `n` rows of `n` values each. */
  predicate IsSquare(m: seq<seq<real>>, n: nat)
  {
    |m| == n && forall i :: 0 <= i < n ==> |m[i]| == n
  }

  /** `square_diff_matrix`: the n-by-n matrix of squared differences of one feature. */
  function SquareDiffMatrix(f: seq<real>): (m: seq<seq<real>>)
    ensures IsSquare(m, |f|)
    ensures forall i, j {:trigger m[i][j]} :: 0 <= i < |f| && 0 <= j < |f| ==> m[i][j] == SquaredDiff(f[i], f[j])
  {
    seq(|f|, i requires 0 <= i < |f| => seq(|f|, j requires 0 <= j < |f| => SquaredDiff(f[i], f[j])))
  }

  /** The matrix is what `square_diff_matrix` builds: the flat list of squared differences
      over all ordered pairs, reshaped to n rows of n. */
  lemma SquareDiffMatrixReshapes(f: seq<real>)
    ensures SquareDiffMatrix(f) == Reshape(SquareDiffList(f, f), |f|, |f|)
  {
    var m := SquareDiffMatrix(f);
    var r := Reshape(SquareDiffList(f, f), |f|, |f|);
    forall i, j | 0 <= i < |f| && 0 <= j < |f|
      ensures m[i][j] == r[i][j]
    {
      ReshapedEntry(f, i, j);
    }
    SameEntries(m, r, |f|, |f|);
  }

  lemma ReshapedEntry(f: seq<real>, i: nat, j: nat)
    requires i < |f| && j < |f|
    ensures Reshape(SquareDiffList(f, f), |f|, |f|)[i][j] == SquaredDiff(f[i], f[j])
  {
    var d := SquareDiffList(f, f);
    assert Reshape(d, |f|, |f|)[i][j] == d[RowMajor(i, j, |f|)];
  }

  /** The matrix is symmetric, non-negative and zero on the diagonal. */
  lemma SquareDiffMatrixShape(f: seq<real>, i: nat, j: nat)
    requires i < |f| && j < |f|
    ensures SquareDiffMatrix(f)[i][j] == SquareDiffMatrix(f)[j][i]
    ensures SquareDiffMatrix(f)[i][j] >= 0.0
    ensures SquareDiffMatrix(f)[i][i] == 0.0
  {
    var m := SquareDiffMatrix(f);
    assert m[i][j] == SquaredDiff(f[i], f[j]) && m[j][i] == SquaredDiff(f[j], f[i]);
    SquaredDiffSymmetric(f[i], f[j]);
    SquaredDiffNonNegative(f[i], f[j]);
    assert m[i][i] == SquaredDiff(f[i], f[i]);
  }

  lemma SquaredDiffNonNegative(x: real, y: real)
    ensures SquaredDiff(x, y) >= 0.0
  {
    SquareIsNonNegative(x - y);
  }

  lemma SquaredDiffPositive(x: real, y: real)
    requires x != y
    ensures SquaredDiff(x, y) > 0.0
  {
    SquareIsPositive(x - y);
  }

  lemma SquaredDiffSymmetric(x: real, y: real)
    ensures SquaredDiff(x, y) == SquaredDiff(y, x)
  {
    assert y - x == -(x - y);
  }

  /** np.sqrt stands for a function with sqrt(0) = 0 that is non-negative on non-negative input. */
  ghost predicate IsSqrt(sqrt: real -> real)
  {
    sqrt(0.0) == 0.0 && forall x :: x >= 0.0 ==> sqrt(x) >= 0.0
  }

  /** `np.triu`: keep the diagonal and what lies above it, zero the rest. */
  function Triu(m: seq<seq<real>>): (t: seq<seq<real>>)
    ensures |t| == |m|
    ensures forall i :: 0 <= i < |m| ==> |t[i]| == |m[i]|
    ensures forall i, j {:trigger t[i][j]} :: 0 <= i < |m| && 0 <= j < |m[i]| ==> t[i][j] == if j < i then 0.0 else m[i][j]
  {
    seq(|m|, i requires 0 <= i < |m| => seq(|m[i]|, j requires 0 <= j < |m[i]| => if j < i then 0.0 else m[i][j]))
  }

  /** `(w[0]*direct + w[1]*age + w[2]*sex) / sum(w)`: one entry of the weighted matrix. */
  function Weigh(w: seq<int>, direct: real, age: real, sex: real): real
    requires |w| >= 3 && Sum(w) != 0
  {
    (w[0] as real * direct + w[1] as real * age + w[2] as real * sex) / Sum(w) as real
  }

  /** The squared difference of one feature between users i and j. */
  function Gap(norm: seq<Features>, feature: Feature, i: nat, j: nat): real
    requires i < |norm| && j < |norm|
  {
    SquaredDiff(Value(norm[i], feature), Value(norm[j], feature))
  }

  /** The squared-difference matrix of a feature column holds the gaps of that feature. */
  lemma ColumnGap(norm: seq<Features>, feature: Feature, i: nat, j: nat)
    requires i < |norm| && j < |norm|
    ensures SquareDiffMatrix(Column(norm, feature))[i][j] == Gap(norm, feature, i, j)
  {
    var c := Column(norm, feature);
    assert SquareDiffMatrix(c)[i][j] == SquaredDiff(c[i], c[j]);
  }

  /** The weighted distance between users i and j before `np.triu`: the geographic
      distance `sqrt(dlat^2 + dlon^2)` and the squared age and sex differences, weighed. */
  function WeightedDistance(norm: seq<Features>, w: seq<int>, sqrt: real -> real, i: nat, j: nat): real
    requires |w| >= 3 && Sum(w) != 0 && i < |norm| && j < |norm|
  {
    Weigh(w,
      sqrt(Gap(norm, Latitude, i, j) + Gap(norm, Longitude, i, j)),
      Gap(norm, Age, i, j),
      Gap(norm, Sex, i, j))
  }

  /** The weighted matrix `calc_dist_array` computes before `np.triu`, entry by entry
      (numpy's `+`, `*`, `/` and `np.sqrt` act on each entry on its own). */
  function WeightedMatrix(norm: seq<Features>, w: seq<int>, sqrt: real -> real): (weighted: seq<seq<real>>)
    requires |w| >= 3 && Sum(w) != 0
    ensures IsSquare(weighted, |norm|)
    ensures forall i, j {:trigger weighted[i][j]} :: 0 <= i < |norm| && 0 <= j < |norm| ==>
      weighted[i][j] == WeightedDistance(norm, w, sqrt, i, j)
  {
    seq(|norm|, i requires 0 <= i < |norm| => seq(|norm|, j requires 0 <= j < |norm| => WeightedDistance(norm, w, sqrt, i, j)))
  }

  /** Each weighted distance is what the numpy expression gives at that entry: the square root
      of the sum of the latitude and longitude squared-difference matrices, and the age and sex
      squared-difference matrices, weighed and divided by the sum of the weights. */
  lemma WeightedDistanceFromMatrices(norm: seq<Features>, w: seq<int>, sqrt: real -> real, i: nat, j: nat)
    requires |w| >= 3 && Sum(w) != 0 && i < |norm| && j < |norm|
    ensures WeightedDistance(norm, w, sqrt, i, j) ==
      Weigh(w,
        sqrt(SquareDiffMatrix(Column(norm, Latitude))[i][j] + SquareDiffMatrix(Column(norm, Longitude))[i][j]),
        SquareDiffMatrix(Column(norm, Age))[i][j],
        SquareDiffMatrix(Column(norm, Sex))[i][j])
  {
    ColumnGap(norm, Latitude, i, j);
    ColumnGap(norm, Longitude, i, j);
    ColumnGap(norm, Age, i, j);
    ColumnGap(norm, Sex, i, j);
    var direct := sqrt(Gap(norm, Latitude, i, j) + Gap(norm, Longitude, i, j));
    assert direct == sqrt(SquareDiffMatrix(Column(norm, Latitude))[i][j] + SquareDiffMatrix(Column(norm, Longitude))[i][j]);
    assert WeightedDistance(norm, w, sqrt, i, j) == Weigh(w, direct, Gap(norm, Age, i, j), Gap(norm, Sex, i, j));
  }

  /** `calc_dist_array`: the weighted sum of the geographic distance and the squared age
      and sex differences, divided by the sum of the weights, upper triangle only. */
  function CalcDistArray(norm: seq<Features>, w: seq<int>, sqrt: real -> real): (dist: seq<seq<real>>)
    requires |w| >= 3 && Sum(w) != 0
    ensures |dist| == |norm|
    ensures forall i :: 0 <= i < |norm| ==> |dist[i]| == |norm|
    ensures forall i, j :: 0 <= i <= j < |norm| ==> dist[i][j] == WeightedDistance(norm, w, sqrt, i, j)
    ensures forall i, j :: 0 <= j < i < |norm| ==> dist[i][j] == 0.0
  {
    Triu(WeightedMatrix(norm, w, sqrt))
  }

  /** For finite standardised features (exact reals here), the distance matrix is
      zero on its diagonal as well as below it, since every difference of a user with
      itself is zero. A NaN feature makes the diagonal NaN in floating point. */
  lemma DistArrayDiagonalIsZero(norm: seq<Features>, w: seq<int>, sqrt: real -> real, i: nat)
    requires |w| >= 3 && Sum(w) != 0 && IsSqrt(sqrt) && i < |norm|
    ensures CalcDistArray(norm, w, sqrt)[i][i] == 0.0
  {
    var dist := CalcDistArray(norm, w, sqrt);
    assert dist[i][i] == WeightedDistance(norm, w, sqrt, i, i);
    WeightedDistanceToSelf(norm, w, sqrt, i);
  }

  lemma WeightedDistanceToSelf(norm: seq<Features>, w: seq<int>, sqrt: real -> real, i: nat)
    requires |w| >= 3 && Sum(w) != 0 && IsSqrt(sqrt) && i < |norm|
    ensures WeightedDistance(norm, w, sqrt, i, i) == 0.0
  {
    assert Gap(norm, Latitude, i, i) == 0.0 && Gap(norm, Longitude, i, i) == 0.0;
    assert Gap(norm, Age, i, i) == 0.0 && Gap(norm, Sex, i, i) == 0.0;
    assert WeightedDistance(norm, w, sqrt, i, i) == Weigh(w, sqrt(0.0), 0.0, 0.0);
  }

  /** With non-negative weights of positive sum, no distance is negative. */
  lemma DistArrayNonNegative(norm: seq<Features>, w: seq<int>, sqrt: real -> real, i: nat, j: nat)
    requires |w| >= 3 && Sum(w) > 0 && w[0] >= 0 && w[1] >= 0 && w[2] >= 0 && IsSqrt(sqrt)
    requires i < |norm| && j < |norm|
    ensures CalcDistArray(norm, w, sqrt)[i][j] >= 0.0
  {
    var dist := CalcDistArray(norm, w, sqrt);
    if i <= j {
      assert dist[i][j] == WeightedDistance(norm, w, sqrt, i, j);
      WeightedDistanceNonNegative(norm, w, sqrt, i, j);
    } else {
      assert dist[i][j] == 0.0;
    }
  }

  lemma WeightedDistanceNonNegative(norm: seq<Features>, w: seq<int>, sqrt: real -> real, i: nat, j: nat)
    requires |w| >= 3 && Sum(w) > 0 && w[0] >= 0 && w[1] >= 0 && w[2] >= 0 && IsSqrt(sqrt)
    requires i < |norm| && j < |norm|
    ensures WeightedDistance(norm, w, sqrt, i, j) >= 0.0
  {
    var a, b := norm[i], norm[j];
    var dlat := Gap(norm, Latitude, i, j);
    var dlon := Gap(norm, Longitude, i, j);
    SquaredDiffNonNegative(a.latitude, b.latitude);
    SquaredDiffNonNegative(a.longitude, b.longitude);
    SquaredDiffNonNegative(a.age, b.age);
    SquaredDiffNonNegative(a.sex, b.sex);
    assert sqrt(dlat + dlon) >= 0.0;
    WeighNonNegative(w, sqrt(dlat + dlon), Gap(norm, Age, i, j), Gap(norm, Sex, i, j));
  }

  lemma WeighNonNegative(w: seq<int>, direct: real, age: real, sex: real)
    requires |w| >= 3 && Sum(w) > 0 && w[0] >= 0 && w[1] >= 0 && w[2] >= 0
    requires direct >= 0.0 && age >= 0.0 && sex >= 0.0
    ensures Weigh(w, direct, age, sex) >= 0.0
  {
    ProductIsNonNegative(w[0] as real, direct);
    ProductIsNonNegative(w[1] as real, age);
    ProductIsNonNegative(w[2] as real, sex);
    var top := w[0] as real * direct + w[1] as real * age + w[2] as real * sex;
    QuotientIsNonNegative(top, Sum(w) as real);
  }

  lemma QuotientIsNonNegative(a: real, b: real)
    requires a >= 0.0 && b > 0.0
    ensures a / b >= 0.0
  {
  }

  lemma SquareIsPositive(x: real)
    requires x != 0.0
    ensures Square(x) > 0.0
  {
    calc {
      Square(x);
    ==
      x * x;
    > { ProductWithItselfIsPositive(x); }
      0.0;
    }
  }

  lemma ProductWithItselfIsPositive(x: real)
    requires x != 0.0
    ensures x * x > 0.0
  {
    if x < 0.0 {
      assert x * x == (-x) * (-x);
    }
  }

  lemma SquareIsNonNegative(x: real)
    ensures x * x >= 0.0
  {
    if x < 0.0 {
      assert x * x == (-x) * (-x);
    }
  }

  lemma ProductIsNonNegative(a: real, b: real)
    requires a >= 0.0 && b >= 0.0
    ensures a * b >= 0.0
  {
  }

  /** `dist_array.any()`: some entry is nonzero. */
  predicate AnyNonzero(dist: seq<seq<real>>)
  {
    exists i, j :: 0 <= i < |dist| && 0 <= j < |dist[i]| && dist[i][j] != 0.0
  }
}
