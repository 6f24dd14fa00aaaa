/**
 * The scripted driver expressions the add-ons install on a cache file's
 * `frame` property, as text and as integer functions of the frame term.
 *
 * Both add-ons write one of two shapes over a frame term `f`:
 *   `(f) % n`                          -- loop from frame 0 with period n
 *   `min(f, (f - s) % n + s)`          -- hold before frame s, then loop with period n
 * The text is what the driver stores; `Eval` is what the host's Python
 * evaluator computes from it when `f` is an integer.
 */
module LoopExpression {
  import opened PyText

  datatype Shape =
    | Wrap(modulus: int)
    | HoldThenWrap(start: int, modulus: int)

  /** The shape both add-ons choose: plain wrap when the start frame is 0, hold-then-wrap otherwise. */
  function Synthesize(start: int, modulus: int): (shape: Shape)
    ensures start == 0 <==> shape.Wrap?
    ensures shape.modulus == modulus
    ensures shape.HoldThenWrap? ==> shape.start == start
  {
    if start == 0 then Wrap(modulus) else HoldThenWrap(start, modulus)
  }

  /**
   * The frame term `frame`, with ` * <speed>` when speed is not 1 and
   * ` + <offset>` when offset is not 0; `show` formats a float as Python's
   * f-string does.
   */
  function FrameText(speed: real, offset: real, show: real -> string): string
  {
    var speedText := if speed == 1.0 then "" else " * " + show(speed);
    var offsetText := if offset == 0.0 then "" else " + " + show(offset);
    "frame" + speedText + offsetText
  }

  /** The frame term is the bare variable exactly when speed is 1 and offset is 0. */
  lemma FrameTextBare(speed: real, offset: real, show: real -> string)
    ensures FrameText(speed, offset, show) == "frame" <==> speed == 1.0 && offset == 0.0
  {
    var t := FrameText(speed, offset, show);
    if speed != 1.0 || offset != 0.0 {
      assert |t| > |"frame"|;
    }
  }

  /**
   * When the formatted numbers hold no `*` and no `+`, the frame term
   * carries a speed factor exactly when speed is not 1 and an offset
   * exactly when offset is not 0.
   */
  lemma FrameTextMarks(speed: real, offset: real, show: real -> string)
    requires '*' !in show(speed) && '*' !in show(offset)
    requires '+' !in show(speed) && '+' !in show(offset)
    ensures '*' in FrameText(speed, offset, show) <==> speed != 1.0
    ensures '+' in FrameText(speed, offset, show) <==> offset != 0.0
  {
    var speedText := if speed == 1.0 then "" else " * " + show(speed);
    var offsetText := if offset == 0.0 then "" else " + " + show(offset);
    assert FrameText(speed, offset, show) == "frame" + speedText + offsetText;
    assert '*' !in "frame" && '+' !in "frame";
    if speed != 1.0 {
      assert speedText[1] == '*';
    }
    if offset != 0.0 {
      assert offsetText[1] == '+';
    }
  }

  /** The expression text for `shape` over the frame term `frame`, integers written as `f"{n}"` writes them. */
  function Render(shape: Shape, frame: string): string
  {
    match shape
    case Wrap(n) => "(" + frame + ") % " + IntToString(n)
    case HoldThenWrap(s, n) =>
      "min(" + frame + ", (" + frame + " - " + IntToString(s) + ") % " + IntToString(n) + " + " + IntToString(s) + ")"
  }

  /**
   * Python's `a % n` on integers: the result has the sign of `n` and differs
   * from `a` by a multiple of `n`; `None` stands for the `ZeroDivisionError`
   * raised when `n` is 0.
   */
  function PyMod(a: int, n: int): (r: Option<int>)
    ensures r.None? <==> n == 0
    ensures n > 0 && r.Some? ==> 0 <= r.value < n
    ensures n < 0 && r.Some? ==> n < r.value <= 0
  {
    if n == 0 then None
    else if n > 0 then Some(a % n)
    else Some(-((-a) % (-n)))
  }

  /** A product is never strictly between `-n` and `n` unless it is 0. */
  lemma MulBetween(n: int, k: int)
    requires n > 0 && -n < n * k < n
    ensures k == 0
  {
  }

  /** Euclidean remainders are unique: any `x == n * q + r` with `0 <= r < n` has `x % n == r`. */
  lemma ModUnique(x: int, n: int, q: int, r: int)
    requires n > 0 && 0 <= r < n && x == n * q + r
    ensures x % n == r
  {
    MulBetween(n, x / n - q);
  }

  /** `a % n` differs from `a` by a multiple of `n`: the remainder is congruent to the dividend. */
  lemma PyModCongruent(a: int, n: int)
    requires n != 0
    ensures var m := if n > 0 then n else -n; (a - PyMod(a, n).value) % m == 0
  {
    if n > 0 {
      ModUnique(a - a % n, n, a / n, 0);
    } else {
      var m := -n;
      ModUnique(a + (-a) % m, m, -((-a) / m), 0);
    }
  }

  /** Python's built-in `min` on two integers. */
  function Min(a: int, b: int): int {
    if b < a then b else a
  }

  /** The value of the expression when the frame term evaluates to the integer `f`. */
  function Eval(shape: Shape, f: int): Option<int>
  {
    match shape
    case Wrap(n) => PyMod(f, n)
    case HoldThenWrap(s, n) =>
      match PyMod(f - s, n)
      case None => None
      case Some(m) => Some(Min(f, m + s))
  }

  /** A wrap with a positive period stays in [0, n) and repeats every n frames. */
  lemma WrapLoops(n: int, f: int)
    requires n > 0
    ensures Eval(Wrap(n), f).Some?
    ensures 0 <= Eval(Wrap(n), f).value < n
    ensures Eval(Wrap(n), f + n) == Eval(Wrap(n), f)
    ensures 0 <= f < n ==> Eval(Wrap(n), f) == Some(f)
  {
    var q := f / n;
    assert f == n * q + f % n;
    MulSucc(n, q);
    ModUnique(f + n, n, q + 1, f % n);
    if 0 <= f < n {
      ModUnique(f, n, 0, f);
    }
  }

  /** One more copy of `n`: `n * (q + 1) == n * q + n`. */
  lemma MulSucc(n: int, q: int)
    ensures n * (q + 1) == n * q + n
  {
  }

  /** Before its start frame a hold-then-wrap expression passes the frame term through unchanged. */
  lemma HoldBeforeStart(s: int, n: int, f: int)
    requires n > 0 && f <= s
    ensures Eval(HoldThenWrap(s, n), f) == Some(f)
  {
  }

  /**
   * From its start frame on, a hold-then-wrap expression stays in
   * [s, s + n), plays frames s .. s + n - 1 unchanged and then repeats
   * every n frames.
   */
  lemma LoopAfterStart(s: int, n: int, f: int)
    requires n > 0 && f >= s
    ensures Eval(HoldThenWrap(s, n), f).Some?
    ensures s <= Eval(HoldThenWrap(s, n), f).value < s + n
    ensures Eval(HoldThenWrap(s, n), f + n) == Eval(HoldThenWrap(s, n), f)
    ensures f < s + n ==> Eval(HoldThenWrap(s, n), f) == Some(f)
  {
    var d := f - s;
    var q := d / n;
    assert d == n * q + d % n;
    MulSucc(n, q);
    ModUnique(d + n, n, q + 1, d % n);
    if d < n {
      ModUnique(d, n, 0, d);
    }
  }

  /** With a zero period the installed expression raises `ZeroDivisionError` whenever it is evaluated. */
  lemma ZeroPeriodRaises(shape: Shape, f: int)
    requires shape.modulus == 0
    ensures Eval(shape, f).None?
  {
  }
}
