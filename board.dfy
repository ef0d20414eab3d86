/** The board generator: equations whose integer result lies in 1..10. */
module Board {
  import opened Common

  /** Number of equations on a board. */
  const BoardSize := 10
  /** Bounds of an equation's result (and of a dice roll). */
  const MinResult := 1
  const MaxResult := 10

  datatype Operator = Add | Sub | Mul | Div

  /** One equation of the board; only `claimedBy` ever changes after setup. */
  datatype Equation = Equation(id: int, val1: int, val2: int, op: Operator, result: int,
                               claimedBy: Option<PlayerId>)

  /**
   * The random draws of one generation attempt, each already scaled and floored:
   * `opIdx` picks the operator, `first` and `second` are the next two draws, in
   * the order the generator makes them.
   */
  datatype Draw = Draw(opIdx: int, first: int, second: int)

  /** The operator table, in the generator's order. */
  function OperatorAt(idx: int): Operator
    requires 0 <= idx < 4
  {
    [Add, Sub, Mul, Div][idx]
  }

  /** The ranges the floored draws take; the second range may depend on the first. */
  predicate ValidDraw(d: Draw)
  {
    0 <= d.opIdx < 4 &&
    match OperatorAt(d.opIdx)
    case Add => 0 <= d.first < 9 && 0 <= d.second < 10 - (d.first + 1)
    case Sub => 0 <= d.first < 10 && 0 <= d.second < (d.first + 2) - 1
    case Mul => 0 <= d.first < 5 && 0 <= d.second < 5
    case Div => 0 <= d.first < 5 && 0 <= d.second < 10
  }

  /** The result lies in range, both operands are positive and the arithmetic is exact. */
  predicate WellFormed(e: Equation)
  {
    MinResult <= e.result <= MaxResult && e.val1 >= 1 && e.val2 >= 1 &&
    match e.op
    case Add => e.val1 + e.val2 == e.result
    case Sub => e.val1 - e.val2 == e.result
    case Mul => e.val1 * e.val2 == e.result
    case Div => e.val1 == e.result * e.val2
  }

  /** A board: equation `i` has id `i` and is well formed. */
  ghost predicate IsBoard(eqs: seq<Equation>)
  {
    |eqs| == BoardSize && forall i :: 0 <= i < |eqs| ==> eqs[i].id == i && WellFormed(eqs[i])
  }

  /** A freshly generated, unclaimed equation with the requested id. */
  predicate Fresh(e: Equation, id: int)
  {
    WellFormed(e) && e.id == id && e.claimedBy == None
  }

  /**
   * One pass of the generator's loop body: the equation the draw yields, or
   * `None` when its result falls outside 1..10 and the loop tries again.
   * Only a product can fail; the other three operators meet the bound by
   * construction.
   */
  function Attempt(id: int, d: Draw): (r: Option<Equation>)
    requires ValidDraw(d)
    ensures r.Some? ==> Fresh(r.value, id) && r.value.op == OperatorAt(d.opIdx)
    ensures r.None? <==> OperatorAt(d.opIdx) == Mul && (d.first + 1) * (d.second + 1) > MaxResult
  {
    var op := OperatorAt(d.opIdx);
    var (v1, v2, res) :=
      match op
      case Add => (d.first + 1, d.second + 1, (d.first + 1) + (d.second + 1))
      case Sub => (d.first + 2, d.second + 1, (d.first + 2) - (d.second + 1))
      case Mul => (d.first + 1, d.second + 1, (d.first + 1) * (d.second + 1))
      case Div => ((d.second + 1) * (d.first + 1), d.first + 1, d.second + 1);
    if MinResult <= res <= MaxResult then Some(Equation(id, v1, v2, op, res, None)) else None
  }

  /** Draw `k` is the first of `draws` whose attempt succeeds. */
  ghost predicate FirstSuccessAt(id: int, draws: seq<Draw>, k: int)
    requires forall j :: 0 <= j < |draws| ==> ValidDraw(draws[j])
  {
    0 <= k < |draws| && Attempt(id, draws[k]).Some? &&
    forall j :: 0 <= j < k ==> Attempt(id, draws[j]).None?
  }

  /** `e` is what the generator returns when fed `draws`. */
  ghost predicate GeneratedFrom(e: Equation, id: int, draws: seq<Draw>)
    requires forall j :: 0 <= j < |draws| ==> ValidDraw(draws[j])
  {
    exists k :: FirstSuccessAt(id, draws, k) && Attempt(id, draws[k]) == Some(e)
  }

  /**
   * The rejection loop of the generator: it draws an operator and operands
   * until the result lies in 1..10. The random source is the sequence of
   * draws, which must eventually contain a successful attempt.
   */
  method GenerateEquation(id: int, draws: seq<Draw>) returns (e: Equation)
    requires forall j :: 0 <= j < |draws| ==> ValidDraw(draws[j])
    requires exists k :: 0 <= k < |draws| && Attempt(id, draws[k]).Some?
    ensures Fresh(e, id)
    ensures GeneratedFrom(e, id, draws)
  {
    var i := 0;
    while true
      invariant 0 <= i < |draws|
      invariant forall j :: 0 <= j < i ==> Attempt(id, draws[j]).None?
      invariant exists k :: i <= k < |draws| && Attempt(id, draws[k]).Some?
      decreases |draws| - i
    {
      var d := draws[i];
      var op := OperatorAt(d.opIdx);
      var val1, val2, result := 0, 0, 0;
      if op == Add {
        val1 := d.first + 1;
        val2 := d.second + 1;
        result := val1 + val2;
      } else if op == Sub {
        val1 := d.first + 2;
        val2 := d.second + 1;
        result := val1 - val2;
      } else if op == Mul {
        val1 := d.first + 1;
        val2 := d.second + 1;
        result := val1 * val2;
      } else {
        val2 := d.first + 1;
        result := d.second + 1;
        val1 := result * val2;
      }
      assert Attempt(id, d) == if MinResult <= result <= MaxResult
                               then Some(Equation(id, val1, val2, op, result, None)) else None;
      if MinResult <= result <= MaxResult {
        e := Equation(id, val1, val2, op, result, None);
        assert FirstSuccessAt(id, draws, i);
        return;
      }
      i := i + 1;
    }
  }

  /** A division equation divides exactly: the dividend is a multiple of the divisor. */
  lemma DivisionIsExact(e: Equation)
    requires WellFormed(e) && e.op == Div
    ensures e.val1 % e.val2 == 0 && e.val1 / e.val2 == e.result
  {
    ExactQuotient(e.val1, e.val2, e.result);
  }

  /** Euclidean division undoes multiplication by a positive divisor. */
  lemma ExactQuotient(x: int, d: int, q: int)
    requires d > 0 && x == q * d
    ensures x % d == 0 && x / d == q
  {
    var m, r := x / d, x % d;
    assert x == d * m + r && 0 <= r < d;
    assert d * (q - m) == r;
    if q - m >= 1 {
      assert false;
    } else if q - m <= -1 {
      assert false;
    }
  }

  /**
   * Random draws for a whole board: one stream per slot, each in range and
   * each holding an attempt that succeeds, so every rejection loop ends.
   */
  ghost predicate BoardDraws(boardDraws: seq<seq<Draw>>)
  {
    |boardDraws| == BoardSize &&
    (forall i, j :: 0 <= i < BoardSize && 0 <= j < |boardDraws[i]| ==> ValidDraw(boardDraws[i][j])) &&
    (forall i :: 0 <= i < BoardSize ==>
       exists k :: 0 <= k < |boardDraws[i]| && Attempt(i, boardDraws[i][k]).Some?)
  }

  /**
   * Setup's loop: one equation per slot, ids 0 to BoardSize - 1 in order, each
   * generated from that slot's draws.
   */
  method GenerateBoard(boardDraws: seq<seq<Draw>>) returns (equations: seq<Equation>)
    requires BoardDraws(boardDraws)
    ensures |equations| == BoardSize
    ensures forall i :: 0 <= i < BoardSize ==>
              Fresh(equations[i], i) && GeneratedFrom(equations[i], i, boardDraws[i])
  {
    equations := [];
    for i := 0 to BoardSize
      invariant |equations| == i
      invariant forall j :: 0 <= j < i ==>
                  Fresh(equations[j], j) && GeneratedFrom(equations[j], j, boardDraws[j])
    {
      var e := GenerateEquation(i, boardDraws[i]);
      equations := equations + [e];
    }
  }

  /** The claim handler's `findIndex`: the first position holding `id`, or -1. */
  function FindIndex(eqs: seq<Equation>, id: int): (r: int)
    ensures -1 <= r < |eqs|
    ensures r == -1 <==> forall i :: 0 <= i < |eqs| ==> eqs[i].id != id
    ensures r >= 0 ==> eqs[r].id == id && forall i :: 0 <= i < r ==> eqs[i].id != id
  {
    if eqs == [] then -1
    else if eqs[0].id == id then 0
    else
      var k := FindIndex(eqs[1..], id);
      assert forall i :: 1 <= i < |eqs| ==> eqs[i] == eqs[1..][i - 1];
      if k == -1 then -1 else k + 1
  }
}
