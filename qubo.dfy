/** The taxi-grouping QUBO as a mathematical object: which binary variable sits
    at which index, what coefficient each pair of variables carries, and the
    sparse term list sent to the annealer. */
module Qubo {
  import opened Basics

  /** Slack bits per taxi group (the `range(5)` loops of the cost model). */
  const SlackBits: nat := 5

  /** A binary variable of the model: `Assign(k, i)` is q[i,k], "user i rides taxi k";
      `Slack(k, l)` is y[k,l], slack bit l of taxi k. */
  datatype Qubit = Assign(k: nat, i: nat) | Slack(k: nat, l: nat)

  /** The inputs of `CostFunction.initialize`: the dimensions, the upper-triangular
      distance matrix and the two penalty weights (alpha for "one taxi per user",
      beta for "at most four per taxi"). */
  datatype Problem = Problem(user: nat, taxi: nat, dist: seq<seq<real>>, penalty1: int, penalty2: int)

  /** `dist[i][j]` exists for every pair i < j of users, which is all the cost model reads. */
  predicate DistCovers(p: Problem)
  {
    |p.dist| >= p.user - 1 && forall i :: 0 <= i < p.user - 1 ==> |p.dist[i]| >= p.user
  }

  /** Side of the square coefficient matrix: `(user+5)*taxi`. */
  function QubitCount(user: nat, taxi: nat): nat
  {
    (user + SlackBits) * taxi
  }

  predicate IsQubit(user: nat, taxi: nat, q: Qubit)
  {
    match q
    case Assign(k, i) => k < taxi && i < user
    case Slack(k, l) => k < taxi && l < SlackBits
  }

  /** Index of a variable: q[i,k] at `user*k+i`, y[k,l] at `user*taxi+5k+l`. */
  function Index(user: nat, taxi: nat, q: Qubit): (r: nat)
    requires IsQubit(user, taxi, q)
    ensures r < QubitCount(user, taxi)
    ensures q.Assign? <==> r < user * taxi
  {
    match q
    case Assign(k, i) =>
      RowMajorBound(k, i, taxi, user);
      user * k + i
    case Slack(k, l) => user * taxi + SlackBits * k + l
  }

  /** The variable stored at index `r`; the inverse of `Index`. */
  function QubitAt(user: nat, taxi: nat, r: nat): (q: Qubit)
    requires r < QubitCount(user, taxi)
    ensures IsQubit(user, taxi, q) && Index(user, taxi, q) == r
  {
    if r < user * taxi then
      UserRowOfIndex(r, user, taxi);
      Assign(r / user, r % user)
    else
      Slack((r - user * taxi) / SlackBits, (r - user * taxi) % SlackBits)
  }

  /** Helper: an index below `user*taxi` splits into a group below `taxi` and a user below `user`. */
  lemma UserRowOfIndex(r: nat, user: nat, taxi: nat)
    requires r < user * taxi
    ensures user > 0 && r / user < taxi && user * (r / user) + r % user == r
  {
    if user > 0 && r / user >= taxi {
      MulMonotone(user, taxi, r / user);
    }
  }

  /** Helper: multiplication by a natural number is monotone. */
  lemma {:induction false} MulMonotone(d: nat, a: nat, b: nat)
    requires a <= b
    ensures d * a <= d * b
    decreases b - a
  {
    if a < b {
      MulMonotone(d, a + 1, b);
      MulSucc(a, d);
    }
  }

  /** Decoding an index gives back the variable it was computed from. */
  lemma DecodeIndex(user: nat, taxi: nat, q: Qubit)
    requires IsQubit(user, taxi, q)
    ensures QubitAt(user, taxi, Index(user, taxi, q)) == q
  {
    var x := QubitAt(user, taxi, Index(user, taxi, q));
    match q
    case Assign(k, i) =>
      assert x.Assign?;
      SplitUnique(user, k, i, x.k, x.i);
    case Slack(k, l) =>
      assert x.Slack?;
      SplitUnique(SlackBits, k, l, x.k, x.l);
  }

  /** Helper: `d*k + i` with `i < d` determines `k` and `i`. */
  lemma SplitUnique(d: nat, k: nat, i: nat, k2: nat, i2: nat)
    requires i < d && i2 < d && d * k + i == d * k2 + i2
    ensures k == k2 && i == i2
  {
    if k < k2 {
      MulMonotone(d, k + 1, k2);
      MulSucc(k, d);
    } else if k2 < k {
      MulMonotone(d, k2 + 1, k);
      MulSucc(k2, d);
    }
  }

  /** The indices of two variables are ordered as the variables are: q before y,
      and within q by group first. */
  lemma AssignIndexOrder(user: nat, taxi: nat, k: nat, i: nat, k2: nat, j: nat)
    requires IsQubit(user, taxi, Assign(k, i)) && IsQubit(user, taxi, Assign(k2, j))
    requires k < k2 || (k == k2 && i < j)
    ensures Index(user, taxi, Assign(k, i)) < Index(user, taxi, Assign(k2, j))
  {
    if k < k2 {
      MulMonotone(user, k + 1, k2);
      MulSucc(k, user);
    }
  }

  // ---------------------------------------------------------------------------
  // Coefficients, stage by stage as `initialize` accumulates them

  /** 2*beta*(l*l2+1), the weight between slack bits l and l2 of one taxi. */
  function SlackWeight(penalty2: int, l: nat, l2: nat): real
  {
    (2 * penalty2 * (l * l2 + 1)) as real
  }

  /** Quadratic terms inside one taxi group (first loop nest):
      (dist[i][j] + 2*beta) for two users, -2*l*beta for a user and a slack bit,
      2*beta*(l*l2+1) for two slack bits. */
  function GroupTerm(p: Problem, x: Qubit, y: Qubit): real
    requires DistCovers(p) && IsQubit(p.user, p.taxi, x) && IsQubit(p.user, p.taxi, y)
  {
    match x
    case Assign(k, i) =>
      (match y
       case Assign(k2, j) => if k == k2 && i < j then p.dist[i][j] + (2 * p.penalty2) as real else 0.0
       case Slack(k2, l) => if k == k2 then (-(l as int) * 2 * p.penalty2) as real else 0.0)
    case Slack(k, l) =>
      (match y
       case Assign(_, _) => 0.0
       case Slack(k2, l2) => if k == k2 && l < l2 then SlackWeight(p.penalty2, l, l2) else 0.0)
  }

  /** Quadratic terms for one user in two taxis (second loop nest): 2*alpha. */
  function CrossTerm(p: Problem, x: Qubit, y: Qubit): real
  {
    if x.Assign? && y.Assign? && x.i == y.i && x.k < y.k then (2 * p.penalty1) as real else 0.0
  }

  /** Linear terms on the diagonal: (beta - alpha) for q, beta*(l*l-1) for y[k,l]. */
  function LinearTerm(p: Problem, x: Qubit, y: Qubit): real
  {
    if x != y then 0.0
    else match x
      case Assign(_, _) => (p.penalty2 - p.penalty1) as real
      case Slack(_, l) => (p.penalty2 * (l * l - 1)) as real
  }

  /** The coefficient of the product of two variables. */
  function Coefficient(p: Problem, x: Qubit, y: Qubit): real
    requires DistCovers(p) && IsQubit(p.user, p.taxi, x) && IsQubit(p.user, p.taxi, y)
  {
    GroupTerm(p, x, y) + CrossTerm(p, x, y) + LinearTerm(p, x, y)
  }

  /** Entry `[r, c]` of the coefficient matrix. */
  function Entry(p: Problem, r: nat, c: nat): real
    requires DistCovers(p) && r < QubitCount(p.user, p.taxi) && c < QubitCount(p.user, p.taxi)
  {
    Coefficient(p, QubitAt(p.user, p.taxi, r), QubitAt(p.user, p.taxi, c))
  }

  /** The whole coefficient matrix. */
  function QuboMatrix(p: Problem): (m: seq<seq<real>>)
    requires DistCovers(p)
    ensures |m| == QubitCount(p.user, p.taxi)
    ensures forall r :: 0 <= r < |m| ==> |m[r]| == |m|
    ensures forall r, c :: 0 <= c < r < |m| ==> m[r][c] == 0.0
  {
    var n := QubitCount(p.user, p.taxi);
    UpperTriangular(p);
    seq(n, r requires 0 <= r < n => seq(n, c requires 0 <= c < n => Entry(p, r, c)))
  }

  /** The constant offset alpha*user + beta*taxi. */
  function Constant(p: Problem): real
  {
    (p.penalty1 * p.user + p.penalty2 * p.taxi) as real
  }

  /** The diagonal list added with `np.diag`: `user*taxi` copies of beta - alpha,
      then for every taxi the five values beta*(l*l-1). */
  function DiagList(p: Problem): (d: seq<real>)
  {
    seq(p.user * p.taxi, _ => (p.penalty2 - p.penalty1) as real) + SlackDiagonal(p.penalty2, p.taxi)
  }

  function SlackDiagonal(penalty2: int, groups: nat): (d: seq<real>)
  {
    if groups == 0 then []
    else SlackDiagonal(penalty2, groups - 1) + seq(SlackBits, l => (penalty2 * (l * l - 1)) as real)
  }

  lemma {:induction false} SlackDiagonalAt(penalty2: int, groups: nat, k: nat, l: nat)
    requires k < groups && l < SlackBits
    ensures |SlackDiagonal(penalty2, groups)| == SlackBits * groups
    ensures SlackDiagonal(penalty2, groups)[SlackBits * k + l] == (penalty2 * (l * l - 1)) as real
    decreases groups
  {
    if k < groups - 1 {
      SlackDiagonalAt(penalty2, groups - 1, k, l);
    } else if groups > 1 {
      SlackDiagonalAt(penalty2, groups - 1, 0, 0);
    }
  }

  /** The diagonal list has one value per variable, and it is that variable's linear term. */
  lemma DiagListAt(p: Problem, r: nat)
    requires r < QubitCount(p.user, p.taxi)
    ensures |DiagList(p)| == QubitCount(p.user, p.taxi)
    ensures DiagList(p)[r] == LinearTerm(p, QubitAt(p.user, p.taxi, r), QubitAt(p.user, p.taxi, r))
  {
    var q := QubitAt(p.user, p.taxi, r);
    if q.Slack? {
      SlackDiagonalAt(p.penalty2, p.taxi, q.k, q.l);
    } else if p.taxi > 0 {
      SlackDiagonalAt(p.penalty2, p.taxi, 0, 0);
    }
  }

  // ---------------------------------------------------------------------------
  // The coefficient matrix at the indices `initialize` writes

  /** Nothing below the diagonal is ever set: every write goes to a column after its row. */
  lemma LowerTriangleIsZero(p: Problem, r: nat, c: nat)
    requires DistCovers(p) && c < r < QubitCount(p.user, p.taxi)
    ensures Entry(p, r, c) == 0.0
  {
    var x, y := QubitAt(p.user, p.taxi, r), QubitAt(p.user, p.taxi, c);
    if x.Assign? && y.Assign? && (x.k < y.k || (x.k == y.k && x.i < y.i)) {
      AssignIndexOrder(p.user, p.taxi, x.k, x.i, y.k, y.i);
    }
  }

  /** Every entry strictly below the diagonal is zero. */
  lemma UpperTriangular(p: Problem)
    requires DistCovers(p)
    ensures forall r, c :: 0 <= c < r < QubitCount(p.user, p.taxi) ==> Entry(p, r, c) == 0.0
  {
    forall r, c | 0 <= c < r < QubitCount(p.user, p.taxi)
      ensures Entry(p, r, c) == 0.0
    {
      LowerTriangleIsZero(p, r, c);
    }
  }

  /** Two users i < j in taxi k: `[user*k+i, user*k+j]` holds dist[i][j] + 2*beta. */
  lemma SameTaxiPairEntry(p: Problem, k: nat, i: nat, j: nat)
    requires DistCovers(p) && k < p.taxi && i < j < p.user
    ensures p.user * k + j < QubitCount(p.user, p.taxi)
    ensures Entry(p, p.user * k + i, p.user * k + j) == p.dist[i][j] + (2 * p.penalty2) as real
  {
    DecodeIndex(p.user, p.taxi, Assign(k, i));
    DecodeIndex(p.user, p.taxi, Assign(k, j));
  }

  /** One user i in taxis k < k2: `[user*k+i, user*k2+i]` holds 2*alpha. */
  lemma OneUserTwoTaxisEntry(p: Problem, i: nat, k: nat, k2: nat)
    requires DistCovers(p) && i < p.user && k < k2 < p.taxi
    ensures p.user * k2 + i < QubitCount(p.user, p.taxi)
    ensures Entry(p, p.user * k + i, p.user * k2 + i) == (2 * p.penalty1) as real
  {
    DecodeIndex(p.user, p.taxi, Assign(k, i));
    DecodeIndex(p.user, p.taxi, Assign(k2, i));
  }

  /** The two index sets above never meet, so no entry is accumulated twice. */
  lemma PairAndCrossDisjoint(user: nat, taxi: nat, k: nat, i: nat, j: nat, i2: nat, k2: nat, k3: nat)
    requires k < taxi && i < j < user
    requires i2 < user && k2 < k3 < taxi
    ensures (user * k + i, user * k + j) != (user * k2 + i2, user * k3 + i2)
  {
    if user * k + i == user * k2 + i2 && user * k + j == user * k3 + i2 {
      SplitUnique(user, k, i, k2, i2);
      SplitUnique(user, k, j, k3, i2);
    }
  }

  /** User i and slack bit l of the same taxi k: `[user*k+i, user*taxi+5k+l]` holds
      -2*l*beta, which is zero for l = 0. */
  lemma UserSlackEntry(p: Problem, k: nat, i: nat, l: nat)
    requires DistCovers(p) && k < p.taxi && i < p.user && l < SlackBits
    ensures p.user * k + i < QubitCount(p.user, p.taxi)
    ensures p.user * p.taxi + SlackBits * k + l < QubitCount(p.user, p.taxi)
    ensures Entry(p, p.user * k + i, p.user * p.taxi + SlackBits * k + l) == (-(l as int) * 2 * p.penalty2) as real
    ensures l == 0 ==> Entry(p, p.user * k + i, p.user * p.taxi + SlackBits * k + l) == 0.0
  {
    DecodeIndex(p.user, p.taxi, Assign(k, i));
    DecodeIndex(p.user, p.taxi, Slack(k, l));
  }

  /** Slack bits l < l2 of taxi k: `[s+5k+l, s+5k+l2]` holds 2*beta*(l*l2+1). */
  lemma SlackPairEntry(p: Problem, k: nat, l: nat, l2: nat)
    requires DistCovers(p) && k < p.taxi && l < l2 < SlackBits
    ensures p.user * p.taxi + SlackBits * k + l2 < QubitCount(p.user, p.taxi)
    ensures Entry(p, p.user * p.taxi + SlackBits * k + l, p.user * p.taxi + SlackBits * k + l2)
            == (2 * p.penalty2 * (l * l2 + 1)) as real
  {
    DecodeIndex(p.user, p.taxi, Slack(k, l));
    DecodeIndex(p.user, p.taxi, Slack(k, l2));
  }

  /** The first `user*taxi` diagonal entries hold beta - alpha. */
  lemma UserDiagonalEntry(p: Problem, r: nat)
    requires DistCovers(p) && r < p.user * p.taxi
    ensures r < QubitCount(p.user, p.taxi)
    ensures Entry(p, r, r) == (p.penalty2 - p.penalty1) as real
  {
    UserRowOfIndex(r, p.user, p.taxi);
    RowMajorBound(r / p.user, r % p.user, p.taxi, p.user);
    DecodeIndex(p.user, p.taxi, Assign(r / p.user, r % p.user));
  }

  /** The diagonal entry of slack bit l of every taxi holds beta*(l*l-1). */
  lemma SlackDiagonalEntry(p: Problem, k: nat, l: nat)
    requires DistCovers(p) && k < p.taxi && l < SlackBits
    ensures p.user * p.taxi + SlackBits * k + l < QubitCount(p.user, p.taxi)
    ensures Entry(p, p.user * p.taxi + SlackBits * k + l, p.user * p.taxi + SlackBits * k + l)
            == (p.penalty2 * (l * l - 1)) as real
  {
    DecodeIndex(p.user, p.taxi, Slack(k, l));
  }

  // ---------------------------------------------------------------------------
  // The sparse term list sent to the annealer

  /** One term of the binary polynomial: a coefficient and the indices it multiplies
      (two for a quadratic term, none for the constant). */
  datatype Term = Term(coefficient: real, polynomials: seq<nat>)

  datatype BinaryPolynomial = BinaryPolynomial(terms: seq<Term>)

  /** Row-major order on index pairs. */
  predicate PairBefore(a: seq<nat>, b: seq<nat>)
  {
    |a| == 2 && |b| == 2 && (a[0] < b[0] || (a[0] == b[0] && a[1] < b[1]))
  }

  /** A term `[r, c]` that names a nonzero entry of `m` and carries it. */
  predicate NamesEntry(m: seq<seq<real>>, t: Term)
  {
    && |t.polynomials| == 2
    && t.polynomials[0] < |m|
    && t.polynomials[1] < |m[t.polynomials[0]]|
    && t.coefficient == m[t.polynomials[0]][t.polynomials[1]]
    && t.coefficient != 0.0
  }

  /** The nonzero entries of row `r` from column `c` on, left to right. */
  function RowTerms(row: seq<real>, r: nat, c: nat): seq<Term>
    requires c <= |row|
    decreases |row| - c
  {
    if c == |row| then []
    else (if row[c] != 0.0 then [Term(row[c], [r, c])] else []) + RowTerms(row, r, c + 1)
  }

  /** The terms of a row name its nonzero entries, in increasing column order. */
  lemma {:induction false} RowTermsShape(row: seq<real>, r: nat, c: nat)
    requires c <= |row|
    ensures forall a :: 0 <= a < |RowTerms(row, r, c)| ==>
      var t := RowTerms(row, r, c)[a];
      |t.polynomials| == 2 && t.polynomials[0] == r && c <= t.polynomials[1] < |row|
      && t.coefficient == row[t.polynomials[1]] && t.coefficient != 0.0
    ensures forall a, b :: 0 <= a < b < |RowTerms(row, r, c)| ==>
      RowTerms(row, r, c)[a].polynomials[1] < RowTerms(row, r, c)[b].polynomials[1]
    decreases |row| - c
  {
    if c < |row| {
      var tail := RowTerms(row, r, c + 1);
      RowTermsShape(row, r, c + 1);
      var head := if row[c] != 0.0 then [Term(row[c], [r, c])] else [];
      assert RowTerms(row, r, c) == head + tail;
    }
  }

  /** The nonzero entries of the rows from `r` on, in row-major order (numpy's `nonzero()`). */
  function MatrixTerms(m: seq<seq<real>>, r: nat): seq<Term>
    requires r <= |m|
    decreases |m| - r
  {
    if r == |m| then [] else RowTerms(m[r], r, 0) + MatrixTerms(m, r + 1)
  }

  /** The terms of the rows from `r` on name nonzero entries, in row-major order. */
  lemma {:induction false} MatrixTermsShape(m: seq<seq<real>>, r: nat)
    requires r <= |m|
    ensures forall a :: 0 <= a < |MatrixTerms(m, r)| ==>
      NamesEntry(m, MatrixTerms(m, r)[a]) && r <= MatrixTerms(m, r)[a].polynomials[0]
    ensures forall a, b :: 0 <= a < b < |MatrixTerms(m, r)| ==>
      PairBefore(MatrixTerms(m, r)[a].polynomials, MatrixTerms(m, r)[b].polynomials)
    decreases |m| - r
  {
    if r < |m| {
      var head, tail := RowTerms(m[r], r, 0), MatrixTerms(m, r + 1);
      RowTermsShape(m[r], r, 0);
      MatrixTermsShape(m, r + 1);
      assert forall a :: 0 <= a < |head| ==> NamesEntry(m, head[a]);
      assert MatrixTerms(m, r) == head + tail;
    }
  }

  /** `to_dict`: one term per nonzero entry in row-major order, then the constant term
      if the constant is nonzero. */
  function Polynomial(m: seq<seq<real>>, constant: real): (poly: BinaryPolynomial)
    ensures forall t :: t in poly.terms ==> t.coefficient != 0.0
    ensures forall a :: 0 <= a < |poly.terms| && poly.terms[a].polynomials != [] ==> NamesEntry(m, poly.terms[a])
    ensures forall a, b :: 0 <= a < b < |poly.terms| && poly.terms[b].polynomials != [] ==>
      PairBefore(poly.terms[a].polynomials, poly.terms[b].polynomials)
    ensures constant != 0.0 <==> (|poly.terms| > 0 && poly.terms[|poly.terms| - 1].polynomials == [])
    ensures constant != 0.0 ==> poly.terms[|poly.terms| - 1] == Term(constant, [])
  {
    var pairs := MatrixTerms(m, 0);
    MatrixTermsShape(m, 0);
    BinaryPolynomial(pairs + (if constant != 0.0 then [Term(constant, [])] else []))
  }

  /** The coefficient listed for an index list, if any (reading the term list back). */
  function Find(terms: seq<Term>, key: seq<nat>): Option<real>
  {
    if terms == [] then None
    else if terms[0].polynomials == key then Some(terms[0].coefficient)
    else Find(terms[1..], key)
  }

  lemma {:induction false} FindAppend(a: seq<Term>, b: seq<Term>, key: seq<nat>)
    ensures Find(a + b, key) == if Find(a, key).Some? then Find(a, key) else Find(b, key)
    decreases |a|
  {
    if a != [] {
      assert (a + b)[1..] == a[1..] + b;
      FindAppend(a[1..], b, key);
    } else {
      assert a + b == b;
    }
  }

  lemma {:induction false} FindRowTerms(row: seq<real>, r: nat, c: nat, r2: nat, c2: nat)
    requires c <= |row|
    ensures Find(RowTerms(row, r, c), [r2, c2])
            == if r2 == r && c <= c2 < |row| && row[c2] != 0.0 then Some(row[c2]) else None
    decreases |row| - c
  {
    if c < |row| {
      var tail := RowTerms(row, r, c + 1);
      FindRowTerms(row, r, c + 1, r2, c2);
      if row[c] != 0.0 {
        var t := Term(row[c], [r, c]);
        assert RowTerms(row, r, c) == [t] + tail;
        FindCons(t, tail, [r2, c2]);
        if r2 == r && c2 == c {
          assert t.polynomials == [r2, c2];
        } else {
          assert t.polynomials[0] != r2 || t.polynomials[1] != c2;
        }
      } else {
        assert RowTerms(row, r, c) == tail;
      }
    }
  }

  lemma FindCons(t: Term, tail: seq<Term>, key: seq<nat>)
    ensures Find([t] + tail, key) == if t.polynomials == key then Some(t.coefficient) else Find(tail, key)
  {
    assert ([t] + tail)[1..] == tail;
  }

  lemma {:induction false} FindMatrixTerms(m: seq<seq<real>>, r: nat, r2: nat, c2: nat)
    requires r <= |m| && r2 < |m| && c2 < |m[r2]|
    ensures Find(MatrixTerms(m, r), [r2, c2])
            == if r <= r2 && m[r2][c2] != 0.0 then Some(m[r2][c2]) else None
    decreases |m| - r
  {
    if r < |m| {
      FindAppend(RowTerms(m[r], r, 0), MatrixTerms(m, r + 1), [r2, c2]);
      FindRowTerms(m[r], r, 0, r2, c2);
      FindMatrixTerms(m, r + 1, r2, c2);
    }
  }

  /** Reading the term list back gives every entry of the matrix: a nonzero entry has
      exactly its own term, a zero entry has none. */
  lemma PolynomialRecoversEntries(m: seq<seq<real>>, constant: real, r: nat, c: nat)
    requires r < |m| && c < |m[r]|
    ensures Find(Polynomial(m, constant).terms, [r, c]) == if m[r][c] != 0.0 then Some(m[r][c]) else None
  {
    var tail := if constant != 0.0 then [Term(constant, [])] else [];
    FindAppend(MatrixTerms(m, 0), tail, [r, c]);
    FindMatrixTerms(m, 0, r, c);
  }

  /** Reading the term list back gives the constant, when it is nonzero. */
  lemma PolynomialRecoversConstant(m: seq<seq<real>>, constant: real)
    ensures Find(Polynomial(m, constant).terms, []) == if constant != 0.0 then Some(constant) else None
  {
    var pairs := MatrixTerms(m, 0);
    var tail := if constant != 0.0 then [Term(constant, [])] else [];
    FindAppend(pairs, tail, []);
    MatrixTermsShape(m, 0);
    FindNoneWithoutKey(pairs, []);
  }

  lemma {:induction false} FindNoneWithoutKey(terms: seq<Term>, key: seq<nat>)
    requires forall a :: 0 <= a < |terms| ==> terms[a].polynomials != key
    ensures Find(terms, key) == None
    decreases |terms|
  {
    if terms != [] {
      FindNoneWithoutKey(terms[1..], key);
    }
  }
}
