/** Operators on values in the old ClassAd language, without reals. */
module ClassAdOperators {
  import opened Options
  import opened ClassAdSyntax

  /** What an expression evaluates to; a time only ever stands for itself. */
  datatype Value = VUndefined | VError | VInt(i: int) | VStr(s: string) | VTime(time: string)

  /** The operator layer's names for operations. */
  datatype OpKind =
    | LessThan | LessOrEqual | NotEqual | Equal | MetaEqual | MetaNotEqual | GreaterOrEqual | GreaterThan
    | UnaryMinus | Addition | Subtraction | Multiplication | Division
    | LogicalOr | LogicalAnd

  function OpKindOf(op: BinOp): OpKind {
    match op
    case Or => LogicalOr
    case And => LogicalAnd
    case Eq => Equal
    case Neq => NotEqual
    case Lt => LessThan
    case Le => LessOrEqual
    case Gt => GreaterThan
    case Ge => GreaterOrEqual
    case Add => Addition
    case Sub => Subtraction
    case Mult => Multiplication
    case Div => Division
    case MetaEq => MetaEqual
    case MetaNeq => MetaNotEqual
  }

  /** The operators know integers, strings, UNDEFINED and ERROR; anything else is an error to them. */
  function Operand(v: Value): Value {
    if v.VTime? then VError else v
  }

  predicate Known(v: Value) {
    !v.VTime?
  }

  /** A finished operation, or the internal error "Should not get here". */
  datatype Outcome = Done(value: Value) | Except

  function Truth(b: bool): Value {
    VInt(if b then 1 else 0)
  }

  function Lower(c: char): char {
    if 'A' <= c <= 'Z' then c + ('a' - 'A') else c
  }

  function LowerAll(s: string): (r: string)
    ensures |r| == |s| && forall i :: 0 <= i < |s| ==> r[i] == Lower(s[i])
  {
    seq(|s|, i requires 0 <= i < |s| => Lower(s[i]))
  }

  /** Lexicographic comparison: the sign of `strcmp`. */
  function StrCmp(s: string, t: string): int {
    if s == "" && t == "" then 0
    else if s == "" then -1
    else if t == "" then 1
    else if s[0] != t[0] then (if s[0] < t[0] then -1 else 1)
    else StrCmp(s[1..], t[1..])
  }

  lemma {:induction false} StrCmpEqual(s: string, t: string)
    ensures StrCmp(s, t) == 0 <==> s == t
    decreases |s|
  {
    if s != "" && t != "" && s[0] == t[0] {
      StrCmpEqual(s[1..], t[1..]);
      assert s == [s[0]] + s[1..] && t == [t[0]] + t[1..];
    }
  }

  /** What a comparison operator says about the sign of a comparison. */
  function ByOrder(op: OpKind, cmp: int): Outcome {
    match op
    case LessThan => Done(Truth(cmp < 0))
    case LessOrEqual => Done(Truth(cmp <= 0))
    case Equal => Done(Truth(cmp == 0))
    case NotEqual => Done(Truth(cmp != 0))
    case GreaterThan => Done(Truth(cmp > 0))
    case GreaterOrEqual => Done(Truth(cmp >= 0))
    case _ => Except
  }

  predicate SameType(a: Value, b: Value) {
    (a.VUndefined? && b.VUndefined?) || (a.VError? && b.VError?) || (a.VInt? && b.VInt?) || (a.VStr? && b.VStr?)
  }

  function DoComparison(op: OpKind, a: Value, b: Value): Outcome {
    var meta := op.MetaEqual? || op.MetaNotEqual?;
    if meta && !SameType(a, b) then Done(Truth(op.MetaNotEqual?))
    else if meta && (a.VUndefined? || a.VError?) then Done(Truth(op.MetaEqual?))
    else
      var op := if op.MetaEqual? then Equal else if op.MetaNotEqual? then NotEqual else op;
      if a.VStr? && b.VStr? then
        ByOrder(op, if meta then StrCmp(a.s, b.s) else StrCmp(LowerAll(a.s), LowerAll(b.s)))
      else if a.VStr? || b.VStr? then Done(VError)
      else if a.VInt? && b.VInt? then ByOrder(op, a.i - b.i)
      else Except
  }

  /** Integer division truncates toward zero. */
  function TruncDiv(a: int, b: int): int
    requires b != 0
  {
    var q := (if a < 0 then -a else a) / (if b < 0 then -b else b);
    if (a < 0) == (b < 0) then q else -q
  }

  function DoArithmetic(op: OpKind, a: Value, b: Value): Outcome {
    if a.VStr? || b.VStr? then Done(VError)
    else if op.UnaryMinus? then Done(if a.VInt? then VInt(ToInt32(-a.i)) else a)
    else if a.VInt? && b.VInt? then
      match op
      case Addition => Done(VInt(ToInt32(a.i + b.i)))
      case Subtraction => Done(VInt(ToInt32(a.i - b.i)))
      case Multiplication => Done(VInt(ToInt32(a.i * b.i)))
      case Division => Done(if b.i == 0 then VError else VInt(ToInt32(TruncDiv(a.i, b.i))))
      case _ => Except
    else Except
  }

  predicate IsTrue(v: Value) {
    v.VInt? && v.i != 0
  }

  predicate IsFalse(v: Value) {
    v.VInt? && v.i == 0
  }

  /** A string is as good as ERROR to the logical operators. */
  predicate Faulty(v: Value) {
    v.VError? || v.VStr?
  }

  function DoLogical(op: OpKind, a: Value, b: Value): Value
    requires op.LogicalOr? || op.LogicalAnd?
  {
    if op.LogicalOr? then
      if IsTrue(a) || IsTrue(b) then VInt(1)
      else if Faulty(a) || Faulty(b) then VError
      else if a.VUndefined? || b.VUndefined? then VUndefined
      else VInt(0)
    else
      if IsFalse(a) || IsFalse(b) then VInt(0)
      else if Faulty(a) || Faulty(b) then VError
      else if a.VUndefined? || b.VUndefined? then VUndefined
      else VInt(1)
  }

  predicate IsComparison(op: OpKind) {
    !op.UnaryMinus? && !op.Addition? && !op.Subtraction? && !op.Multiplication? && !op.Division? && !IsLogical(op)
  }

  predicate IsLogical(op: OpKind) {
    op.LogicalOr? || op.LogicalAnd?
  }

  /** Both operands evaluated: strict in ERROR and UNDEFINED except for the meta and logical operators. */
  function Operate(op: OpKind, a: Value, b: Value): Outcome {
    if !op.MetaEqual? && !op.MetaNotEqual? && !IsLogical(op) && (a.VError? || b.VError?) then Done(VError)
    else if !op.MetaEqual? && !op.MetaNotEqual? && !IsLogical(op) && (a.VUndefined? || b.VUndefined?) then Done(VUndefined)
    else if IsComparison(op) then DoComparison(op, a, b)
    else if IsLogical(op) then Done(DoLogical(op, a, b))
    else DoArithmetic(op, a, b)
  }

  /** What the left operand alone decides. */
  function ShortCircuit(op: OpKind, a: Value): Option<Value> {
    match op
    case LogicalOr => if IsTrue(a) then Some(VInt(1)) else None
    case LogicalAnd =>
      if Faulty(a) then Some(VError)
      else if IsFalse(a) then Some(VInt(0))
      else if a.VUndefined? then Some(VUndefined)
      else None
    case _ => None
  }

  /** What evaluation does: the right operand only if the left one does not decide. */
  function Lazy(op: OpKind, a: Value, b: Value): Outcome {
    match ShortCircuit(op, a)
    case Some(v) => Done(v)
    case None => Operate(op, a, b)
  }

  /***** Properties *****/

  /** On the values of any two expressions no operator reaches an internal error, and neither does unary minus. */
  lemma NeverExcept(op: BinOp, left: Value, right: Value)
    ensures var a, b := Operand(left), Operand(right);
            && Operate(OpKindOf(op), a, b).Done? && Known(Operate(OpKindOf(op), a, b).value)
            && Lazy(OpKindOf(op), a, b).Done? && Known(Lazy(OpKindOf(op), a, b).value)
            && Operate(UnaryMinus, a, VInt(0)).Done?
  {
  }

  /** `=?=` is equality of operands. */
  lemma MetaEqualIsEquality(a: Value, b: Value)
    requires Known(a) && Known(b)
    ensures Operate(MetaEqual, a, b) == Done(Truth(a == b))
    ensures Operate(MetaNotEqual, a, b) == Done(Truth(a != b))
  {
    if a.VStr? && b.VStr? {
      StrCmpEqual(a.s, b.s);
    }
  }

  /** Lazy `||` is strict `||`; lazy `&&` differs from strict `&&` in exactly these cases. */
  lemma LazyVersusStrict(a: Value, b: Value)
    requires Known(a) && Known(b)
    ensures Lazy(LogicalOr, a, b) == Operate(LogicalOr, a, b)
    ensures Lazy(LogicalAnd, a, b) != Operate(LogicalAnd, a, b) <==>
            ((Faulty(a) || a.VUndefined?) && IsFalse(b)) || (a.VUndefined? && Faulty(b))
  {
  }

  /***** Truth tables *****/

  /** `&&` of two values: false wins over faults, faults over UNDEFINED, and only two truths make a truth. */
  lemma AndTable(a: Value, b: Value)
    requires Known(a) && Known(b)
    ensures Operate(LogicalAnd, a, b) == Done(VInt(0)) <==> IsFalse(a) || IsFalse(b)
    ensures Operate(LogicalAnd, a, b) == Done(VInt(1)) <==> IsTrue(a) && IsTrue(b)
    ensures Operate(LogicalAnd, a, b) == Done(VError) <==> !IsFalse(a) && !IsFalse(b) && (Faulty(a) || Faulty(b))
    ensures Operate(LogicalAnd, a, b) == Done(VUndefined) <==>
            (a.VUndefined? && (IsTrue(b) || b.VUndefined?)) || (IsTrue(a) && b.VUndefined?)
  {
  }

  /** `||` is its dual. */
  lemma OrTable(a: Value, b: Value)
    requires Known(a) && Known(b)
    ensures Operate(LogicalOr, a, b) == Done(VInt(1)) <==> IsTrue(a) || IsTrue(b)
    ensures Operate(LogicalOr, a, b) == Done(VInt(0)) <==> IsFalse(a) && IsFalse(b)
    ensures Operate(LogicalOr, a, b) == Done(VError) <==> !IsTrue(a) && !IsTrue(b) && (Faulty(a) || Faulty(b))
    ensures Operate(LogicalOr, a, b) == Done(VUndefined) <==>
            (a.VUndefined? && (IsFalse(b) || b.VUndefined?)) || (IsFalse(a) && b.VUndefined?)
  {
  }

  /** `&&` as it is evaluated, from the left: whatever is not true decides, and a true left side leaves it to the right one. */
  lemma LazyAndTable(a: Value, b: Value)
    requires Known(a) && Known(b)
    ensures Lazy(LogicalAnd, a, b) == Done(
              if IsTrue(a) then (if IsTrue(b) then VInt(1) else if IsFalse(b) then VInt(0) else if b.VUndefined? then VUndefined else VError)
              else if IsFalse(a) then VInt(0) else if a.VUndefined? then VUndefined else VError)
  {
  }

  /**
    Every other operator but the meta ones is strict: ERROR from an ERROR, else UNDEFINED from an UNDEFINED, else ERROR from a string
    unless two strings are compared.
   */
  lemma StrictElsewhere(op: BinOp, a: Value, b: Value)
    requires Known(a) && Known(b) && op !in {And, Or, MetaEq, MetaNeq}
    ensures Operate(OpKindOf(op), a, b) == Done(VError) <==>
            || a.VError? || b.VError?
            || (!a.VUndefined? && !b.VUndefined? && (a.VStr? || b.VStr?) && (!(a.VStr? && b.VStr?) || op in {Add, Sub, Mult, Div}))
            || (op == Div && a.VInt? && b == VInt(0))
    ensures Operate(OpKindOf(op), a, b) == Done(VUndefined) <==>
            !a.VError? && !b.VError? && (a.VUndefined? || b.VUndefined?)
  {
  }

  lemma {:induction false} StrCmpFlips(s: string, t: string)
    ensures StrCmp(s, t) == -StrCmp(t, s) && -1 <= StrCmp(s, t) <= 1
    decreases |s|
  {
    if s != "" && t != "" && s[0] == t[0] {
      StrCmpFlips(s[1..], t[1..]);
    }
  }

  lemma {:induction false} StrCmpTransitive(a: string, b: string, c: string)
    requires StrCmp(a, b) <= 0 && StrCmp(b, c) <= 0
    ensures StrCmp(a, c) <= 0
    decreases |a|
  {
    if a != "" && b != "" && c != "" && a[0] == b[0] == c[0] {
      StrCmpTransitive(a[1..], b[1..], c[1..]);
    }
  }

  /** Two integers, or two strings. */
  predicate Comparable(a: Value, b: Value) {
    (a.VInt? && b.VInt?) || (a.VStr? && b.VStr?)
  }

  predicate Holds(op: OpKind, a: Value, b: Value) {
    Operate(op, a, b) == Done(VInt(1))
  }

  /** Comparisons of integers and of strings are the six relations of one total order, which ignores case. */
  lemma OrderLaws(a: Value, b: Value)
    requires Comparable(a, b)
    ensures Holds(LessThan, a, b) == Holds(GreaterThan, b, a)
    ensures Holds(LessOrEqual, a, b) == !Holds(GreaterThan, a, b) && Holds(GreaterOrEqual, a, b) == !Holds(LessThan, a, b)
    ensures Holds(Equal, a, b) == (Holds(LessOrEqual, a, b) && Holds(GreaterOrEqual, a, b))
    ensures Holds(NotEqual, a, b) == !Holds(Equal, a, b)
    ensures Holds(Equal, a, b) == if a.VInt? then a == b else LowerAll(a.s) == LowerAll(b.s)
    ensures a.VInt? ==> (Holds(LessThan, a, b) <==> a.i < b.i)
  {
    if a.VStr? {
      StrCmpFlips(LowerAll(a.s), LowerAll(b.s));
      StrCmpEqual(LowerAll(a.s), LowerAll(b.s));
    }
  }

  /** `s` comes before `t`: at the first difference it has the smaller character, or it ends there. */
  ghost predicate Before(s: string, t: string) {
    exists k :: 0 <= k <= |s| && k < |t| && s[..k] == t[..k] && (k == |s| || s[k] < t[k])
  }

  lemma {:induction false} StrCmpBefore(s: string, t: string)
    ensures StrCmp(s, t) < 0 <==> Before(s, t)
    decreases |s|
  {
    if s == "" || t == "" || s[0] != t[0] {
      assert s[..0] == t[..0];
      assert forall k | 0 < k <= |s| && k < |t| :: s[0] == s[..k][0] && t[0] == t[..k][0];
    } else {
      StrCmpBefore(s[1..], t[1..]);
      if Before(s[1..], t[1..]) {
        var k :| 0 <= k <= |s[1..]| && k < |t[1..]| && s[1..][..k] == t[1..][..k] && (k == |s[1..]| || s[1..][k] < t[1..][k]);
        assert s[..k + 1] == [s[0]] + s[1..][..k] && t[..k + 1] == [t[0]] + t[1..][..k];
      }
      if Before(s, t) {
        var k :| 0 <= k <= |s| && k < |t| && s[..k] == t[..k] && (k == |s| || s[k] < t[k]);
        assert s[1..][..k - 1] == s[..k][1..] && t[1..][..k - 1] == t[..k][1..];
      }
    }
  }

  /** For strings it is the order of dictionaries, on lower-case letters. */
  lemma StringOrder(s: string, t: string)
    ensures Holds(LessThan, VStr(s), VStr(t)) <==> Before(LowerAll(s), LowerAll(t))
  {
    StrCmpBefore(LowerAll(s), LowerAll(t));
  }

  /** The order is transitive; with the laws for pairs it is total, up to case. */
  lemma OrderIsTransitive(a: Value, b: Value, c: Value)
    requires Comparable(a, b) && Comparable(b, c) && Holds(LessOrEqual, a, b) && Holds(LessOrEqual, b, c)
    ensures Comparable(a, c) && Holds(LessOrEqual, a, c)
    ensures Holds(LessThan, a, b) || Holds(LessThan, b, c) ==> Holds(LessThan, a, c)
  {
    if a.VStr? {
      var x, y, z := LowerAll(a.s), LowerAll(b.s), LowerAll(c.s);
      StrCmpTransitive(x, y, z);
      if StrCmp(x, y) < 0 || StrCmp(y, z) < 0 {
        StrictlyLess(x, y, z);
      }
    }
  }

  lemma StrictlyLess(x: string, y: string, z: string)
    requires StrCmp(x, y) <= 0 && StrCmp(y, z) <= 0 && (StrCmp(x, y) < 0 || StrCmp(y, z) < 0)
    ensures StrCmp(x, z) < 0
  {
    StrCmpTransitive(x, y, z);
    if StrCmp(x, z) == 0 {
      StrCmpEqual(x, z);
      StrCmpFlips(x, y);
    }
  }

  /** Division by anything but zero truncates toward zero: the remainder is smaller than the divisor and has the dividend's sign. */
  lemma DivisionTruncates(x: int, y: int)
    requires INT_MIN <= x <= INT_MAX && INT_MIN <= y <= INT_MAX && y != 0 && !(x == INT_MIN && y == -1)
    ensures Operate(Division, VInt(x), VInt(y)).Done? && Operate(Division, VInt(x), VInt(y)).value.VInt?
    ensures var q := Operate(Division, VInt(x), VInt(y)).value.i;
            var r := x - q * y;
            (if y < 0 then y < r < -y else -y < r < y) && (r == 0 || (r < 0 <==> x < 0))
  {
    hide TruncDiv, ToInt32;
    Truncates(x, y);
    if x == INT_MIN {
      SmallestQuotient(y);
    }
  }

  /** Only -1 takes the smallest `int` out of range. */
  lemma SmallestQuotient(y: int)
    requires y != 0 && y != -1 && INT_MIN <= y <= INT_MAX
    ensures INT_MIN <= TruncDiv(INT_MIN, y) <= INT_MAX
  {
    var d := if y < 0 then -y else y;
    var q := 0x8000_0000 / d;
    if y < 0 {
      Quotient(0x8000_0000, d);
      HalfOrLess(q, d, 0x8000_0000);
    } else {
      Quotient(0x8000_0000, d);
    }
  }

  lemma HalfOrLess(q: nat, d: nat, n: nat)
    requires d >= 2 && q * d <= n
    ensures 2 * q <= n
  {
    AtLeast(q, d - 1);
    assert q * d == q * (d - 1) + q;
  }

  lemma Quotient(n: nat, d: nat)
    requires d > 0
    ensures n == n / d * d + n % d && n % d < d && 0 <= n / d <= n
  {
    var q, r := n / d, n % d;
    assert n == q * d + r;
    AtLeast(q, d);
  }

  lemma {:induction false} AtLeast(q: nat, d: nat)
    requires d > 0
    ensures q <= q * d
    decreases d
  {
    if d > 1 {
      AtLeast(q, d - 1);
      assert q * d == q * (d - 1) + q;
    }
  }

  lemma Truncates(x: int, y: int)
    requires y != 0
    ensures var r := x - TruncDiv(x, y) * y;
            (if y < 0 then y < r < -y else -y < r < y) && (r == 0 || (r < 0 <==> x < 0))
    ensures -(if x < 0 then -x else x) <= TruncDiv(x, y) <= (if x < 0 then -x else x)
  {
    var n, d := if x < 0 then -x else x, if y < 0 then -y else y;
    Quotient(n, d);
    SignedProduct(n / d, d, x < 0, y < 0);
  }

  lemma SignedProduct(q: int, d: int, negX: bool, negY: bool)
    ensures (if negX == negY then q else -q) * (if negY then -d else d) == if negX then -(q * d) else q * d
  {
  }

  /** Addition and subtraction undo each other in 32 bits, and addition and multiplication do not depend on order. */
  lemma ArithmeticLaws(x: int, y: int)
    requires INT_MIN <= x <= INT_MAX && INT_MIN <= y <= INT_MAX
    ensures var sum := Operate(Addition, VInt(x), VInt(y));
            sum.Done? && sum == Operate(Addition, VInt(y), VInt(x)) && Operate(Subtraction, sum.value, VInt(y)) == Done(VInt(x))
    ensures Operate(Multiplication, VInt(x), VInt(y)) == Operate(Multiplication, VInt(y), VInt(x))
    ensures Operate(Subtraction, VInt(0), VInt(x)) == Operate(UnaryMinus, VInt(x), VInt(0))
  {
    hide ToInt32;
    WrapSum(x, y);
    Commutes(x, y);
  }

  lemma Commutes(x: int, y: int)
    ensures x * y == y * x
  {
  }

  lemma WrapSum(x: int, y: int)
    requires INT_MIN <= x <= INT_MAX && INT_MIN <= y <= INT_MAX
    ensures ToInt32(ToInt32(x + y) - y) == x
  {
  }
}
