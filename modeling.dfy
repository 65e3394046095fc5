/** The cost model and the solver's answer as the objects of modeling.py:
    `CostFunction` accumulates the QUBO coefficients into a square array field,
    `Response` holds the converted configuration and the grid `to_array` builds. */
module Modeling {
  import opened Basics
  import opened Qubo
  import opened Decoding

  /** The exceptions the optimiser raises, one per raising statement. */
  datatype Error =
    | TooManyUsers                 // main: more users than the cap
    | SolverFailed(message: string) // minimize: HTTP failure or result_status false
    | MalformedConfiguration       // Response: int() of a key or value raises
    | ShapeMismatch                // to_array: fewer values than taxi*user, reshape raises
    | Infeasible                   // main: a penalty constraint is violated

  /** Row variable x belongs to group k and its row has been visited: users before i,
      slack bits before l. */
  predicate GroupRowBefore(k: nat, i: nat, l: nat, x: Qubit)
  {
    x.k == k && (if x.Assign? then x.i < i else x.l < l)
  }

  /** Row variable x is q[i,k2] for a taxi k2 before k. */
  predicate CrossRowBefore(i: nat, k: nat, x: Qubit)
  {
    x.Assign? && x.i == i && x.k < k
  }

  class CostFunction {
    const user: nat
    const taxi: nat
    /** The `(user+5)*taxi` square coefficient matrix. */
    const coefficientArray: array2<real>
    var constant: real

    ghost predicate Valid()
    {
      coefficientArray.Length0 == QubitCount(user, taxi) &&
      coefficientArray.Length1 == QubitCount(user, taxi)
    }

    /** A zero matrix of side `(user+5)*taxi` and a zero constant. */
    constructor (user: nat, taxi: nat)
      ensures this.user == user && this.taxi == taxi && Valid()
      ensures fresh(coefficientArray)
      ensures forall r, c :: 0 <= r < QubitCount(user, taxi) && 0 <= c < QubitCount(user, taxi) ==>
        coefficientArray[r, c] == 0.0
      ensures constant == 0.0
    {
      this.user := user;
      this.taxi := taxi;
      var numberQubit := (user + 5) * taxi;
      coefficientArray := new real[numberQubit, numberQubit]((r, c) => 0.0);
      constant := 0.0;
    }

    /** The matrix as a value. */
    function Coefficients(): (m: seq<seq<real>>)
      requires Valid()
      reads coefficientArray
      ensures |m| == QubitCount(user, taxi)
      ensures forall r :: 0 <= r < |m| ==> |m[r]| == |m|
      ensures forall r, c :: 0 <= r < |m| && 0 <= c < |m| ==> m[r][c] == coefficientArray[r, c]
    {
      var n := QubitCount(user, taxi);
      seq(n, r requires 0 <= r < n reads coefficientArray =>
        seq(n, c requires 0 <= c < n reads coefficientArray => coefficientArray[r, c]))
    }

    /** `initialize`: adds the coefficient of every pair of variables to the matrix
        (the numpy `+=`), so on a fresh object the matrix becomes `QuboMatrix`, and
        sets the constant. */
    method Initialize(dist: seq<seq<real>>, penalty1: int, penalty2: int)
      requires Valid() && DistCovers(Problem(user, taxi, dist, penalty1, penalty2))
      modifies this, coefficientArray
      ensures forall r, c :: 0 <= r < QubitCount(user, taxi) && 0 <= c < QubitCount(user, taxi) ==>
        coefficientArray[r, c] ==
          old(coefficientArray[r, c]) + Entry(Problem(user, taxi, dist, penalty1, penalty2), r, c)
      ensures constant == Constant(Problem(user, taxi, dist, penalty1, penalty2))
    {
      var p := Problem(user, taxi, dist, penalty1, penalty2);
      ghost var n := QubitCount(user, taxi);
      // quadratic terms inside each taxi group
      var k := 0;
      while k < taxi
        invariant k <= taxi
        invariant forall r, c :: 0 <= r < n && 0 <= c < n ==>
          coefficientArray[r, c] == old(coefficientArray[r, c]) +
            (if QubitAt(user, taxi, r).k < k
             then GroupTerm(p, QubitAt(user, taxi, r), QubitAt(user, taxi, c)) else 0.0)
      {
        AddGroup(p, k);
        k := k + 1;
      }
      // quadratic terms for one user in two taxis
      var i := 0;
      while i < user
        invariant i <= user
        invariant forall r, c :: 0 <= r < n && 0 <= c < n ==>
          coefficientArray[r, c] == old(coefficientArray[r, c]) +
            GroupTerm(p, QubitAt(user, taxi, r), QubitAt(user, taxi, c)) +
            (if QubitAt(user, taxi, r).Assign? && QubitAt(user, taxi, r).i < i
             then CrossTerm(p, QubitAt(user, taxi, r), QubitAt(user, taxi, c)) else 0.0)
      {
        AddCrossUser(p, i);
        i := i + 1;
      }
      // linear terms
      AddDiagonal(p);
      constant := (penalty1 * user + penalty2 * taxi) as real;
    }

    /** One pass of the outer loop of the first nest: the rows of group k. */
    method AddGroup(p: Problem, k: nat)
      requires Valid() && p.user == user && p.taxi == taxi && DistCovers(p) && k < taxi
      modifies coefficientArray
      ensures forall r, c :: 0 <= r < QubitCount(user, taxi) && 0 <= c < QubitCount(user, taxi) ==>
        coefficientArray[r, c] == old(coefficientArray[r, c]) +
          (if QubitAt(user, taxi, r).k == k
           then GroupTerm(p, QubitAt(user, taxi, r), QubitAt(user, taxi, c)) else 0.0)
    {
      ghost var n := QubitCount(user, taxi);
      var i := 0;
      while i < user
        invariant i <= user
        invariant forall r, c :: 0 <= r < n && 0 <= c < n ==>
          coefficientArray[r, c] == old(coefficientArray[r, c]) +
            (if GroupRowBefore(k, i, 0, QubitAt(user, taxi, r))
             then GroupTerm(p, QubitAt(user, taxi, r), QubitAt(user, taxi, c)) else 0.0)
      {
        DecodeIndex(user, taxi, Assign(k, i));
        AddUserRow(p, k, i);
        i := i + 1;
      }
      var l := 0;
      while l < 5
        invariant l <= 5
        invariant forall r, c :: 0 <= r < n && 0 <= c < n ==>
          coefficientArray[r, c] == old(coefficientArray[r, c]) +
            (if GroupRowBefore(k, user, l, QubitAt(user, taxi, r))
             then GroupTerm(p, QubitAt(user, taxi, r), QubitAt(user, taxi, c)) else 0.0)
      {
        DecodeIndex(user, taxi, Slack(k, l));
        AddSlackRow(p, k, l);
        l := l + 1;
      }
    }

    /** One pass of the outer loop of the second nest: the rows of user i. */
    method AddCrossUser(p: Problem, i: nat)
      requires Valid() && p.user == user && p.taxi == taxi && i < user
      modifies coefficientArray
      ensures forall r, c :: 0 <= r < QubitCount(user, taxi) && 0 <= c < QubitCount(user, taxi) ==>
        coefficientArray[r, c] == old(coefficientArray[r, c]) +
          (if QubitAt(user, taxi, r).Assign? && QubitAt(user, taxi, r).i == i
           then CrossTerm(p, QubitAt(user, taxi, r), QubitAt(user, taxi, c)) else 0.0)
    {
      ghost var n := QubitCount(user, taxi);
      var k := 0;
      assert forall r :: 0 <= r < n ==> !CrossRowBefore(i, k, QubitAt(user, taxi, r));
      while k < taxi
        invariant k <= taxi
        invariant forall r, c :: 0 <= r < n && 0 <= c < n ==>
          coefficientArray[r, c] == old(coefficientArray[r, c]) +
            (if CrossRowBefore(i, k, QubitAt(user, taxi, r))
             then CrossTerm(p, QubitAt(user, taxi, r), QubitAt(user, taxi, c)) else 0.0)
      {
        DecodeIndex(user, taxi, Assign(k, i));
        AddCrossRow(p, i, k);
        k := k + 1;
      }
    }

    /** One pass of the user loop of the first nest: row q[i,k] gets dist[i][j] + 2*beta
        for every later user j of the group and -2*l*beta for every slack bit. */
    method AddUserRow(p: Problem, k: nat, i: nat)
      requires Valid() && p.user == user && p.taxi == taxi && DistCovers(p) && k < taxi && i < user
      modifies coefficientArray
      ensures forall r, c :: 0 <= r < QubitCount(user, taxi) && 0 <= c < QubitCount(user, taxi) ==>
        coefficientArray[r, c] == old(coefficientArray[r, c]) +
          (if r == Index(user, taxi, Assign(k, i)) then GroupTerm(p, Assign(k, i), QubitAt(user, taxi, c)) else 0.0)
    {
      AddUserPairs(p, k, i);
      AddUserSlacks(p, k, i);
    }

    /** The `j` loop: row q[i,k] gets dist[i][j] + 2*beta for every later user j. */
    method AddUserPairs(p: Problem, k: nat, i: nat)
      requires Valid() && p.user == user && p.taxi == taxi && DistCovers(p) && k < taxi && i < user
      modifies coefficientArray
      ensures forall r, c :: 0 <= r < QubitCount(user, taxi) && 0 <= c < QubitCount(user, taxi) ==>
        coefficientArray[r, c] == old(coefficientArray[r, c]) +
          (if r == Index(user, taxi, Assign(k, i)) && QubitAt(user, taxi, c).Assign?
           then GroupTerm(p, Assign(k, i), QubitAt(user, taxi, c)) else 0.0)
    {
      ghost var n := QubitCount(user, taxi);
      var a := user * k + i;
      assert a == Index(user, taxi, Assign(k, i));
      var j := i + 1;
      assert forall c :: 0 <= c < n ==> !UserColumnBefore(k, i, j, QubitAt(user, taxi, c));
      while j < user
        invariant i + 1 <= j <= user
        invariant forall r, c :: 0 <= r < n && 0 <= c < n ==>
          coefficientArray[r, c] == old(coefficientArray[r, c]) +
            (if r == a && UserColumnBefore(k, i, j, QubitAt(user, taxi, c))
             then GroupTerm(p, Assign(k, i), QubitAt(user, taxi, c)) else 0.0)
      {
        var b := user * k + j;
        DecodeIndex(user, taxi, Assign(k, j));
        coefficientArray[a, b] := coefficientArray[a, b] + (p.dist[i][j] + (2 * p.penalty2) as real);
        j := j + 1;
      }
    }

    /** The first `l` loop: row q[i,k] gets -2*l*beta for every slack bit of group k. */
    method AddUserSlacks(p: Problem, k: nat, i: nat)
      requires Valid() && p.user == user && p.taxi == taxi && DistCovers(p) && k < taxi && i < user
      modifies coefficientArray
      ensures forall r, c :: 0 <= r < QubitCount(user, taxi) && 0 <= c < QubitCount(user, taxi) ==>
        coefficientArray[r, c] == old(coefficientArray[r, c]) +
          (if r == Index(user, taxi, Assign(k, i)) && QubitAt(user, taxi, c).Slack?
           then GroupTerm(p, Assign(k, i), QubitAt(user, taxi, c)) else 0.0)
    {
      ghost var n := QubitCount(user, taxi);
      var a := user * k + i;
      assert a == Index(user, taxi, Assign(k, i));
      var l := 0;
      assert forall c :: 0 <= c < n ==> !SlackColumnBefore(k, 0, l, QubitAt(user, taxi, c));
      while l < 5
        invariant l <= 5
        invariant forall r, c :: 0 <= r < n && 0 <= c < n ==>
          coefficientArray[r, c] == old(coefficientArray[r, c]) +
            (if r == a && SlackColumnBefore(k, 0, l, QubitAt(user, taxi, c))
             then GroupTerm(p, Assign(k, i), QubitAt(user, taxi, c)) else 0.0)
      {
        var b := user * taxi + 5 * k + l;
        DecodeIndex(user, taxi, Slack(k, l));
        coefficientArray[a, b] := coefficientArray[a, b] + (-(l as int) * 2 * p.penalty2) as real;
        l := l + 1;
      }
    }

    /** One pass of the slack loop of the first nest: row y[k,l] gets 2*beta*(l*l2+1)
        for every later slack bit l2 of the group. */
    method AddSlackRow(p: Problem, k: nat, l: nat)
      requires Valid() && p.user == user && p.taxi == taxi && DistCovers(p) && k < taxi && l < 5
      modifies coefficientArray
      ensures forall r, c :: 0 <= r < QubitCount(user, taxi) && 0 <= c < QubitCount(user, taxi) ==>
        coefficientArray[r, c] == old(coefficientArray[r, c]) +
          (if r == Index(user, taxi, Slack(k, l)) then GroupTerm(p, Slack(k, l), QubitAt(user, taxi, c)) else 0.0)
    {
      ghost var n := QubitCount(user, taxi);
      var a := user * taxi + 5 * k + l;
      assert a == Index(user, taxi, Slack(k, l));
      var l2 := l + 1;
      assert forall c :: 0 <= c < n ==> SlackRowTerm(p, k, l, l2, QubitAt(user, taxi, c)) == 0.0;
      while l2 < 5
        invariant l + 1 <= l2 <= 5
        invariant forall r, c :: 0 <= r < n && 0 <= c < n ==>
          coefficientArray[r, c] == old(coefficientArray[r, c]) +
            (if r == a then SlackRowTerm(p, k, l, l2, QubitAt(user, taxi, c)) else 0.0)
      {
        var b := user * taxi + 5 * k + l2;
        DecodeIndex(user, taxi, Slack(k, l2));
        coefficientArray[a, b] := coefficientArray[a, b] + SlackWeight(p.penalty2, l, l2);
        l2 := l2 + 1;
      }
      forall c | 0 <= c < n
        ensures SlackRowTerm(p, k, l, 5, QubitAt(user, taxi, c)) == GroupTerm(p, Slack(k, l), QubitAt(user, taxi, c))
      {
      }
    }

    /** The innermost loop of the second nest: row `user*k+i` gains `2*penalty1` at
        `user*k2+i` for every later taxi k2. */
    method AddCrossRow(p: Problem, i: nat, k: nat)
      requires Valid() && p.user == user && p.taxi == taxi && k < taxi && i < user
      modifies coefficientArray
      ensures forall r, c :: 0 <= r < QubitCount(user, taxi) && 0 <= c < QubitCount(user, taxi) ==>
        coefficientArray[r, c] == old(coefficientArray[r, c]) +
          (if r == Index(user, taxi, Assign(k, i)) then CrossTerm(p, Assign(k, i), QubitAt(user, taxi, c)) else 0.0)
    {
      ghost var n := QubitCount(user, taxi);
      var a := user * k + i;
      assert a == Index(user, taxi, Assign(k, i));
      var k2 := k + 1;
      assert forall c :: 0 <= c < n ==> !CrossColumnBefore(k, i, k2, QubitAt(user, taxi, c));
      while k2 < taxi
        invariant k + 1 <= k2 <= taxi
        invariant forall r, c :: 0 <= r < n && 0 <= c < n ==>
          coefficientArray[r, c] == old(coefficientArray[r, c]) +
            (if r == a && CrossColumnBefore(k, i, k2, QubitAt(user, taxi, c))
             then CrossTerm(p, Assign(k, i), QubitAt(user, taxi, c)) else 0.0)
      {
        var b := user * k2 + i;
        DecodeIndex(user, taxi, Assign(k2, i));
        coefficientArray[a, b] := coefficientArray[a, b] + (2 * p.penalty1) as real;
        k2 := k2 + 1;
      }
    }

    /** `coefficient_array += np.diag(diag_list)`. */
    method AddDiagonal(p: Problem)
      requires Valid() && p.user == user && p.taxi == taxi
      modifies coefficientArray
      ensures forall r, c :: 0 <= r < QubitCount(user, taxi) && 0 <= c < QubitCount(user, taxi) ==>
        coefficientArray[r, c] == old(coefficientArray[r, c]) +
          LinearTerm(p, QubitAt(user, taxi, r), QubitAt(user, taxi, c))
    {
      var n := (user + 5) * taxi;
      var diagList := DiagList(p);
      if n > 0 {
        DiagListAt(p, 0);
      }
      forall r | 0 <= r < n {
        coefficientArray[r, r] := coefficientArray[r, r] + diagList[r];
      }
      forall r, c | 0 <= r < n && 0 <= c < n
        ensures coefficientArray[r, c] == old(coefficientArray[r, c]) +
          LinearTerm(p, QubitAt(user, taxi, r), QubitAt(user, taxi, c))
      {
        if r == c {
          DiagListAt(p, r);
        }
      }
    }

    /** `to_dict`: the term list holds exactly the nonzero entries, each under its
        `[row, col]` key, and the constant under the empty key when it is nonzero. */
    method ToDict() returns (poly: BinaryPolynomial)
      requires Valid()
      ensures poly == Polynomial(Coefficients(), constant)
      ensures forall r, c :: 0 <= r < QubitCount(user, taxi) && 0 <= c < QubitCount(user, taxi) ==>
        Find(poly.terms, [r, c]) == if coefficientArray[r, c] != 0.0 then Some(coefficientArray[r, c]) else None
      ensures Find(poly.terms, []) == if constant != 0.0 then Some(constant) else None
    {
      var m := Coefficients();
      poly := Polynomial(m, constant);
      forall r, c | 0 <= r < QubitCount(user, taxi) && 0 <= c < QubitCount(user, taxi)
        ensures Find(poly.terms, [r, c]) == if coefficientArray[r, c] != 0.0 then Some(coefficientArray[r, c]) else None
      {
        PolynomialRecoversEntries(m, constant, r, c);
      }
      PolynomialRecoversConstant(m, constant);
    }
  }

  /** Column variable q[j,k] with i < j < jEnd. */
  predicate UserColumnBefore(k: nat, i: nat, jEnd: nat, y: Qubit)
  {
    y.Assign? && y.k == k && i < y.i < jEnd
  }

  /** Column variable y[k,l2] with lStart <= l2 < lEnd. */
  predicate SlackColumnBefore(k: nat, lStart: nat, lEnd: nat, y: Qubit)
  {
    y.Slack? && y.k == k && lStart <= y.l < lEnd
  }

  /** The part of row y[k,l] written so far: slack columns y[k,l2] with l < l2 < lEnd. */
  function SlackRowTerm(p: Problem, k: nat, l: nat, lEnd: nat, y: Qubit): real
  {
    if y.Slack? && y.k == k && l < y.l < lEnd then SlackWeight(p.penalty2, l, y.l) else 0.0
  }

  /** Column variable q[i,k2] with k < k2 < kEnd. */
  predicate CrossColumnBefore(k: nat, i: nat, kEnd: nat, y: Qubit)
  {
    y.Assign? && y.i == i && k < y.k < kEnd
  }

  class Response {
    /** `{int(k): int(v) ...}` of the reported configuration, in its order. */
    var config: Config
    var energy: real
    var qubitArray: Option<Grid>

    /** `Response(j)` for a reply whose configuration converts. */
    constructor (raw: seq<(string, RawValue)>, energy: real)
      requires Configuration(raw).Some?
      ensures config == Configuration(raw).value && this.energy == energy && qubitArray == None
    {
      config := Configuration(raw).value;
      this.energy := energy;
      qubitArray := None;
    }

    /** `to_array`: stores the first taxi*user values, in dict order, as `taxi` rows of
        `user` columns; reports whether there were enough values for the reshape. */
    method ToArray(user: nat, taxi: nat) returns (shaped: bool)
      modifies this
      ensures config == old(config) && energy == old(energy)
      ensures shaped <==> |config| >= taxi * user
      ensures shaped ==> qubitArray == Some(ToGrid(config, user, taxi))
      ensures !shaped ==> qubitArray == old(qubitArray)
    {
      var values := Values(config);
      if |values| >= taxi * user {
        qubitArray := Some(Grid(taxi, user, Reshape(values[..taxi * user], taxi, user)));
        shaped := true;
      } else {
        shaped := false;
      }
    }

    /** `check_penalty` on the stored grid. */
    function CheckPenalty(): (violations: (nat, nat))
      reads this
      requires qubitArray.Some? && Shaped(qubitArray.value)
      ensures violations == (0, 0) <==> Feasible(qubitArray.value)
    {
      Violations(qubitArray.value)
    }

    /** `group` on the stored grid. */
    function Group(): (numbers: seq<nat>)
      reads this
      requires qubitArray.Some? && Shaped(qubitArray.value)
      ensures forall u :: 0 <= u < |numbers| ==> numbers[u] < qubitArray.value.rows
    {
      Decoding.Group(qubitArray.value)
    }
  }

  /** What the annealing service answers to the POST: a failed request with its
      text, or a `qubo_solution` with its status flag, configuration and energy. */
  datatype Reply = Rejected(text: string) | Answered(resultStatus: bool, configuration: seq<(string, RawValue)>, energy: real)

  /** `DAPTSolver.minimize`: sends the term list through `post` and wraps a
      successful answer in a fresh `Response`; a failed request, a false status or
      a configuration that does not convert to integers is an error. */
  method Minimize(qubitDict: BinaryPolynomial, post: BinaryPolynomial -> Reply) returns (outcome: Result<Response, Error>)
    ensures post(qubitDict).Rejected? ==> outcome == Failure(SolverFailed(post(qubitDict).text))
    ensures post(qubitDict).Answered? && !post(qubitDict).resultStatus ==>
      outcome == Failure(SolverFailed("result_status is false."))
    ensures post(qubitDict).Answered? && post(qubitDict).resultStatus && Configuration(post(qubitDict).configuration).None? ==>
      outcome == Failure(MalformedConfiguration)
    ensures outcome.Success? <==>
      post(qubitDict).Answered? && post(qubitDict).resultStatus && Configuration(post(qubitDict).configuration).Some?
    ensures outcome.Success? ==>
      fresh(outcome.value) &&
      outcome.value.config == Configuration(post(qubitDict).configuration).value &&
      outcome.value.energy == post(qubitDict).energy && outcome.value.qubitArray == None
  {
    var reply := post(qubitDict);
    match reply
    case Rejected(text) =>
      outcome := Failure(SolverFailed(text));
    case Answered(status, raw, energy) =>
      if !status {
        outcome := Failure(SolverFailed("result_status is false."));
      } else if Configuration(raw).None? {
        outcome := Failure(MalformedConfiguration);
      } else {
        var response := new Response(raw, energy);
        outcome := Success(response);
      }
  }
}
