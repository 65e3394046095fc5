/** `main.main`: the size guard, the fixed parameters, the degenerate-distance
    branch and the feasibility gate around the cost model and the solver. */
module Orchestrator {
  import opened Basics
  import opened Preparations
  import opened Qubo
  import opened Decoding
  import opened Modeling

  /** At most this many users are grouped in one call. */
  const UpperUser: nat := 10
  /** Number of taxis, the rows of the decoded grid. */
  const Taxis: nat := 15
  /** alpha, the weight of "each user in exactly one taxi". */
  const Penalty1: int := 10
  /** beta, the weight of "at most four users per taxi". */
  const Penalty2: int := 10
  /** Distance weights: geographic distance only. */
  const Weights: seq<int> := [1, 0, 0]

  /** The distance matrix `main` builds from the users' table. */
  function DistanceMatrix(rows: seq<UserRecord>, today: Date, zscore: seq<real> -> seq<real>, sqrt: real -> real): (dist: seq<seq<real>>)
    requires KeepsLength(zscore)
    ensures |dist| == |rows| && forall i :: 0 <= i < |rows| ==> |dist[i]| == |rows|
    ensures forall i, j :: 0 <= j < i < |rows| ==> dist[i][j] == 0.0
  {
    assert Sum(Weights) == 1;
    CalcDistArray(Normalize(rows, today, zscore), Weights, sqrt)
  }

  /** The cost model `main` builds for `user` users. */
  function Model(user: nat, dist: seq<seq<real>>): Problem
  {
    Problem(user, Taxis, dist, Penalty1, Penalty2)
  }

  /** The term list `main` sends to the annealer. */
  function Request(user: nat, dist: seq<seq<real>>): BinaryPolynomial
    requires DistCovers(Model(user, dist))
  {
    Polynomial(QuboMatrix(Model(user, dist)), Constant(Model(user, dist)))
  }

  /** What `main` makes of the annealer's reply for `user` users: an error from the
      solver or the conversion, a reshape error, a violated constraint, or the taxi
      number of every user. */
  function Decide(reply: Reply, user: nat): (r: Result<seq<nat>, Error>)
    ensures reply.Rejected? || !reply.resultStatus ==> r.Failure? && r.error.SolverFailed?
    ensures r.Success? ==>
      reply.Answered? && reply.resultStatus && Configuration(reply.configuration).Some? &&
      |Configuration(reply.configuration).value| >= Taxis * user &&
      Feasible(ToGrid(Configuration(reply.configuration).value, user, Taxis)) &&
      r.value == Group(ToGrid(Configuration(reply.configuration).value, user, Taxis))
    ensures r.Success? ==> forall u :: 0 <= u < |r.value| ==> r.value[u] < Taxis
    ensures r == Failure(Infeasible) ==>
      reply.Answered? && Configuration(reply.configuration).Some? &&
      |Configuration(reply.configuration).value| >= Taxis * user &&
      !Feasible(ToGrid(Configuration(reply.configuration).value, user, Taxis))
  {
    match reply
    case Rejected(text) => Failure(SolverFailed(text))
    case Answered(status, raw, _) =>
      if !status then Failure(SolverFailed("result_status is false."))
      else match Configuration(raw)
        case None => Failure(MalformedConfiguration)
        case Some(config) =>
          if |config| < Taxis * user then Failure(ShapeMismatch)
          else
            var g := ToGrid(config, user, Taxis);
            if Violations(g) != (0, 0) then Failure(Infeasible) else Success(Group(g))
  }

  /** The feasibility gate: an answered reply with enough values is rejected as
      infeasible exactly when some user is not in one taxi or some taxi is full. */
  lemma InfeasibleExactlyWhenViolated(reply: Reply, user: nat)
    requires reply.Answered? && reply.resultStatus && Configuration(reply.configuration).Some?
    requires |Configuration(reply.configuration).value| >= Taxis * user
    ensures Decide(reply, user) == Failure(Infeasible) <==>
      !Feasible(ToGrid(Configuration(reply.configuration).value, user, Taxis))
    ensures Decide(reply, user).Success? <==>
      Feasible(ToGrid(Configuration(reply.configuration).value, user, Taxis))
  {
  }

  /** When every converted value of the reply is 0 or 1 and the gate passes, every
      user gets exactly one taxi number below 15, the taxi whose bit is set for that
      user, and no taxi gets more than four users. (`FlagValues`: a reply of JSON
      booleans converts to such values. `CleanCheckWithoutBits`: without the 0/1
      condition the gate alone does not give this.) */
  lemma DecidedGroupsAreAssignment(reply: Reply, user: nat)
    requires Decide(reply, user).Success?
    requires reply.Answered? && Configuration(reply.configuration).Some?
    requires forall i :: 0 <= i < |Configuration(reply.configuration).value| ==>
      Configuration(reply.configuration).value[i].1 == 0 || Configuration(reply.configuration).value[i].1 == 1
    ensures |Configuration(reply.configuration).value| >= Taxis * user
    ensures var ns := Decide(reply, user).value;
      var g := ToGrid(Configuration(reply.configuration).value, user, Taxis);
      |ns| == user &&
      (forall u :: 0 <= u < user ==> ns[u] < Taxis && g.cells[ns[u]][u] == 1) &&
      (forall k :: 0 <= k < Taxis ==> Occurrences(ns, k) < 5)
  {
    var config := Configuration(reply.configuration).value;
    var g := ToGrid(config, user, Taxis);
    BitValuesGiveBits(config, user, Taxis);
    assert Feasible(g);
    GroupIsAssignment(g);
    TaxiCapacity(g);
  }

  /** The degenerate branch, for finite standardised features (exact reals here):
      since only the geographic weight is nonzero, the distance matrix `main` builds
      has a nonzero entry exactly when two users stand at different standardised
      positions, whatever their ages and sexes. In floating point a constant feature
      column standardises to NaN and `0 * nan` is NaN, which this does not cover. */
  lemma NonzeroExactlyWhenApart(norm: seq<Features>, sqrt: real -> real)
    requires IsSqrt(sqrt) && forall x :: x > 0.0 ==> sqrt(x) > 0.0
    ensures AnyNonzero(CalcDistArray(norm, Weights, sqrt)) <==>
      exists i, j :: 0 <= i < |norm| && 0 <= j < |norm| && Apart(norm[i], norm[j])
  {
    if AnyNonzero(CalcDistArray(norm, Weights, sqrt)) {
      NonzeroMeansApart(norm, sqrt);
    }
    if i, j :| 0 <= i < |norm| && 0 <= j < |norm| && Apart(norm[i], norm[j]) {
      if i <= j {
        ApartMeansNonzero(norm, sqrt, i, j);
      } else {
        ApartMeansNonzero(norm, sqrt, j, i);
      }
    }
  }

  /** Helper: a nonzero entry sits between two users at different positions. */
  lemma NonzeroMeansApart(norm: seq<Features>, sqrt: real -> real)
    requires IsSqrt(sqrt) && AnyNonzero(CalcDistArray(norm, Weights, sqrt))
    ensures exists i, j :: 0 <= i < |norm| && 0 <= j < |norm| && Apart(norm[i], norm[j])
  {
    var dist := CalcDistArray(norm, Weights, sqrt);
    var i, j :| 0 <= i < |dist| && 0 <= j < |dist[i]| && dist[i][j] != 0.0;
    assert i <= j;
    GeographicOnly(norm, sqrt, i, j);
    assert Apart(norm[i], norm[j]);
  }

  /** Helper: two users a <= b at different positions have a nonzero entry. */
  lemma ApartMeansNonzero(norm: seq<Features>, sqrt: real -> real, a: nat, b: nat)
    requires forall x :: x > 0.0 ==> sqrt(x) > 0.0
    requires a <= b < |norm| && Apart(norm[a], norm[b])
    ensures AnyNonzero(CalcDistArray(norm, Weights, sqrt))
  {
    var dist := CalcDistArray(norm, Weights, sqrt);
    GeographicOnly(norm, sqrt, a, b);
    SquaredDiffNonNegative(norm[a].latitude, norm[b].latitude);
    SquaredDiffNonNegative(norm[a].longitude, norm[b].longitude);
    if norm[a].latitude != norm[b].latitude {
      SquaredDiffPositive(norm[a].latitude, norm[b].latitude);
    } else {
      SquaredDiffPositive(norm[a].longitude, norm[b].longitude);
    }
    assert Gap(norm, Latitude, a, b) + Gap(norm, Longitude, a, b) > 0.0;
    assert dist[a][b] != 0.0;
  }

  /** Helper: with the fixed weights an entry on or above the diagonal is the
      geographic distance alone. */
  lemma GeographicOnly(norm: seq<Features>, sqrt: real -> real, a: nat, b: nat)
    requires a <= b < |norm|
    ensures Sum(Weights) == 1
    ensures CalcDistArray(norm, Weights, sqrt)[a][b] == sqrt(Gap(norm, Latitude, a, b) + Gap(norm, Longitude, a, b))
  {
    assert Sum(Weights) == 1;
  }

  /** Two users at different standardised positions. */
  predicate Apart(x: Features, y: Features)
  {
    x.latitude != y.latitude || x.longitude != y.longitude
  }

  /** `main(df)`, with the day of the age computation, the standardisation, the
      square root, the annealing service and the random draw passed in. Returns the
      outcome and the term list sent to the annealer, if any. */
  method AssignTaxis(rows: seq<UserRecord>, today: Date, zscore: seq<real> -> seq<real>, sqrt: real -> real,
                     post: BinaryPolynomial -> Reply, randomGroups: seq<nat>)
    returns (outcome: Result<seq<nat>, Error>, request: Option<BinaryPolynomial>)
    requires KeepsLength(zscore)
    requires |randomGroups| == |rows| && forall u :: 0 <= u < |rows| ==> randomGroups[u] < Taxis
    ensures |rows| > UpperUser ==> outcome == Failure(TooManyUsers) && request == None
    ensures |rows| <= UpperUser && !AnyNonzero(DistanceMatrix(rows, today, zscore, sqrt)) ==>
      outcome == Success(randomGroups) && request == None
    ensures |rows| <= UpperUser && AnyNonzero(DistanceMatrix(rows, today, zscore, sqrt)) ==>
      request == Some(Request(|rows|, DistanceMatrix(rows, today, zscore, sqrt))) &&
      outcome == Decide(post(request.value), |rows|)
  {
    var user := |rows|;
    if user > UpperUser {
      return Failure(TooManyUsers), None;
    }
    var taxi := Taxis;
    var normDf := Normalize(rows, today, zscore);
    assert Sum(Weights) == 1;
    var distArray := CalcDistArray(normDf, Weights, sqrt);
    if AnyNonzero(distArray) {
      var qubitDict := BuildModel(user, distArray);
      request := Some(qubitDict);
      outcome := SolveAndDecode(qubitDict, post, user);
    } else {
      outcome := Success(randomGroups);
      request := None;
    }
  }

  /** Building the model: a fresh `CostFunction`, `initialize` with the fixed
      penalties, `to_dict`. */
  method BuildModel(user: nat, distArray: seq<seq<real>>) returns (qubitDict: BinaryPolynomial)
    requires DistCovers(Model(user, distArray))
    ensures qubitDict == Request(user, distArray)
  {
    var model := new CostFunction(user, Taxis);
    model.Initialize(distArray, Penalty1, Penalty2);
    qubitDict := model.ToDict();
    ghost var p := Model(user, distArray);
    assert model.Coefficients() == QuboMatrix(p) by {
      SameEntries(model.Coefficients(), QuboMatrix(p), QubitCount(user, Taxis), QubitCount(user, Taxis));
    }
  }

  /** Solving and decoding: `minimize`, `to_array`, `check_penalty`, and `group`
      when no constraint is violated. */
  method SolveAndDecode(qubitDict: BinaryPolynomial, post: BinaryPolynomial -> Reply, user: nat)
    returns (outcome: Result<seq<nat>, Error>)
    ensures outcome == Decide(post(qubitDict), user)
  {
    var solved := Minimize(qubitDict, post);
    match solved
    case Failure(e) =>
      outcome := Failure(e);
    case Success(response) =>
      var shaped := response.ToArray(user, Taxis);
      if !shaped {
        outcome := Failure(ShapeMismatch);
      } else {
        var (fUser, fTaxi) := response.CheckPenalty();
        if fUser == 0 && fTaxi == 0 {
          outcome := Success(response.Group());
        } else {
          outcome := Failure(Infeasible);
        }
      }
  }
}
