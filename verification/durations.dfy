/** Note values, their weights, and the greedy decomposition of a length into
    the fewest standard notes: the `Value` table, `mapNoteValue` and
    `lengthToNotes` of src/jot.ts.

    All lengths are counted in sixteenth notes. The source counts in quarter
    notes (a sixteenth weighs 0.25), and every length it can form from the
    table is a whole number of sixteenths, so the integer model is exact. */
module Durations {
  import opened Wrappers

  /** The five note values, shortest first. */
  datatype Value = Sixteenth | Eighth | Quarter | Half | Whole

  /** The weight of a note value, in sixteenths: a whole note divided by a
      power of two. */
  function Weight(v: Value): (r: nat)
    ensures 1 <= r <= 16 && 16 % r == 0
  {
    match v
    case Sixteenth => 1
    case Eighth => 2
    case Quarter => 4
    case Half => 8
    case Whole => 16
  }

  /** A length in sixteenths, expressed in quarter notes as the source counts. */
  function Quarters(n: int): real
  {
    n as real / 4.0
  }

  /** The weight table in the source's own unit: 0.25, 0.5, 1, 2 and 4 quarter
      notes, each value weighing twice the one below it. */
  lemma WeightTable()
    ensures Quarters(Weight(Sixteenth)) == 0.25
    ensures Quarters(Weight(Eighth)) == 0.5
    ensures Quarters(Weight(Quarter)) == 1.0
    ensures Quarters(Weight(Half)) == 2.0
    ensures Quarters(Weight(Whole)) == 4.0
  {
  }

  /** The sum of the weights of a sequence of values. */
  function Total(vs: seq<Value>): nat
  {
    if vs == [] then 0 else Weight(vs[0]) + Total(vs[1..])
  }

  lemma {:induction false} TotalAppend(a: seq<Value>, b: seq<Value>)
    ensures Total(a + b) == Total(a) + Total(b)
  {
    if a == [] {
      assert a + b == b;
    } else {
      assert (a + b)[0] == a[0] && (a + b)[1..] == a[1..] + b;
      TotalAppend(a[1..], b);
    }
  }

  /** The order in which `lengthToNotes` tries the values: longest first. */
  const Descending: seq<Value> := [Whole, Half, Quarter, Eighth, Sixteenth]

  /** The longest value that can be subtracted from `n` without going below
      zero, or None when not even a sixteenth fits. */
  function LargestFitting(n: int): (r: Option<Value>)
    ensures r.None? <==> n < Weight(Sixteenth)
    ensures r.Some? ==> Weight(r.value) <= n
  {
    if n >= Weight(Whole) then Some(Whole)
    else if n >= Weight(Half) then Some(Half)
    else if n >= Weight(Quarter) then Some(Quarter)
    else if n >= Weight(Eighth) then Some(Eighth)
    else if n >= Weight(Sixteenth) then Some(Sixteenth)
    else None
  }

  /** No value that fits is longer than the one chosen. */
  lemma LargestFittingMaximal(n: int, u: Value)
    requires Weight(u) <= n
    ensures LargestFitting(n).Some? && Weight(u) <= Weight(LargestFitting(n).value)
  {
  }

  /** The inner search of `lengthToNotes`: walk the values longest first and
      stop at the first one whose subtraction leaves a non-negative length. */
  method FindSubtractable(current: int) returns (r: Option<Value>)
    ensures r == LargestFitting(current)
  {
    r := None;
    for i := 0 to |Descending|
      invariant r == None
      invariant 0 < i ==> current - Weight(Descending[i - 1]) < 0
    {
      if current - Weight(Descending[i]) >= 0 {
        r := Some(Descending[i]);
        assert i == 0 || i == 1 || i == 2 || i == 3 || i == 4;
        return;
      }
    }
    assert current - Weight(Descending[4]) < 0;
  }

  /** The notes `lengthToNotes` produces for a non-negative length: repeatedly
      take the longest value that fits. */
  function Greedy(n: nat): seq<Value>
    decreases n
  {
    if n == 0 then []
    else
      var v := LargestFitting(n).value;
      [v] + Greedy(n - Weight(v))
  }

  /** `Number.isInteger(length / 0.25)`: the length is a whole number of sixteenths. */
  predicate IsSixteenthMultiple(length: real)
  {
    (4.0 * length).Floor as real == 4.0 * length
  }

  /** The two errors `lengthToNotes` throws. */
  datatype LengthError =
    | NotSixteenthMultiple(length: real)
    | NoSubtractableNote(remainingSixteenths: int)

  /** What `lengthToNotes(length)` returns or throws, `length` in quarter notes. */
  function Decompose(length: real): (r: Result<seq<Value>, LengthError>)
    ensures r.Success? <==> IsSixteenthMultiple(length) && length >= 0.0
    ensures !IsSixteenthMultiple(length) ==> r == Failure(NotSixteenthMultiple(length))
    ensures IsSixteenthMultiple(length) && length < 0.0 ==> r.Failure? && r.error.NoSubtractableNote?
  {
    if !IsSixteenthMultiple(length) then Failure(NotSixteenthMultiple(length))
    else
      var n := (4.0 * length).Floor;
      if n < 0 then Failure(NoSubtractableNote(n)) else Success(Greedy(n))
  }

  /** `lengthToNotes`: reject lengths that are not whole sixteenths, then
      subtract the longest fitting value until nothing is left. */
  method LengthToNotes(length: real) returns (r: Result<seq<Value>, LengthError>)
    ensures r == Decompose(length)
  {
    if !IsSixteenthMultiple(length) {
      return Failure(NotSixteenthMultiple(length));
    }
    var notes: seq<Value> := [];
    var currentValue := (4.0 * length).Floor;
    ghost var start := currentValue;
    while true
      invariant start >= 0 ==> currentValue >= 0 && notes + Greedy(currentValue) == Greedy(start)
      invariant start < 0 ==> currentValue == start && notes == []
      decreases currentValue
    {
      if currentValue == 0 {
        break;
      }
      var noteToSubtract := FindSubtractable(currentValue);
      if noteToSubtract.Some? {
        notes := notes + [noteToSubtract.value];
        currentValue := currentValue - Weight(noteToSubtract.value);
      } else {
        return Failure(NoSubtractableNote(currentValue));
      }
    }
    assert notes == Greedy(start);
    return Success(notes);
  }

  /** `lengthToNotes` on a length that is a whole number of sixteenths, as
      every length the segmentation asks for is. */
  function DecomposeSixteenths(n: int): (r: Result<seq<Value>, LengthError>)
    ensures r.Success? <==> n >= 0
  {
    if n < 0 then Failure(NoSubtractableNote(n)) else Success(Greedy(n))
  }

  /** Such a length passes the multiple-of-a-sixteenth check, so it only fails
      when it is negative. */
  lemma DecomposeQuarters(n: int)
    ensures Decompose(Quarters(n)) == DecomposeSixteenths(n)
  {
    assert 4.0 * Quarters(n) == n as real;
  }

  /** On success the weights add up exactly to the requested length. */
  lemma DecomposeTotal(length: real)
    requires Decompose(length).Success?
    ensures Quarters(Total(Decompose(length).value)) == length
  {
    GreedyTotal((4.0 * length).Floor);
  }

  /** The same for a length counted in sixteenths. */
  lemma DecomposeSixteenthsTotal(n: int)
    requires DecomposeSixteenths(n).Success?
    ensures Total(DecomposeSixteenths(n).value) == n
  {
    GreedyTotal(n);
  }

  lemma {:induction false} GreedyTotal(n: nat)
    ensures Total(Greedy(n)) == n
  {
    if n > 0 {
      var v := LargestFitting(n).value;
      GreedyTotal(n - Weight(v));
    }
  }

  /** Zero needs no notes and any positive length needs at least one. */
  lemma GreedyEmpty(n: nat)
    ensures Greedy(n) == [] <==> n == 0
  {
  }

  /** Every value chosen for `n` fits in `n`. */
  lemma {:induction false} GreedyBounded(n: nat)
    ensures forall i :: 0 <= i < |Greedy(n)| ==> Weight(Greedy(n)[i]) <= n
  {
    if n > 0 {
      var v := LargestFitting(n).value;
      GreedyBounded(n - Weight(v));
    }
  }

  /** The shape of the decomposition: weights never increase, and only whole
      notes repeat, so there is at most one half, quarter, eighth and sixteenth. */
  lemma {:induction false} GreedyShape(n: nat)
    ensures forall i, j :: 0 <= i < j < |Greedy(n)| ==>
      Weight(Greedy(n)[j]) <= Weight(Greedy(n)[i]) && (Greedy(n)[i] == Greedy(n)[j] ==> Greedy(n)[i] == Whole)
  {
    if n > 0 {
      var v := LargestFitting(n).value;
      var m := n - Weight(v);
      GreedyShape(m);
      GreedyBounded(m);
      if v != Whole {
        // the next longer value does not fit, so what is left is shorter than v
        var longer := match v
          case Sixteenth => Eighth
          case Eighth => Quarter
          case Quarter => Half
          case _ => Whole;
        assert Weight(longer) == 2 * Weight(v);
        assert m < Weight(v);
      }
      var g := Greedy(n);
      assert g == [v] + Greedy(m);
      forall i, j | 0 <= i < j < |g|
        ensures Weight(g[j]) <= Weight(g[i]) && (g[i] == g[j] ==> g[i] == Whole)
      {
        if i > 0 {
          assert g[i] == Greedy(m)[i - 1] && g[j] == Greedy(m)[j - 1];
        } else {
          assert g[j] == Greedy(m)[j - 1];
        }
      }
    }
  }

  /** `k` copies of the value `v`. */
  function Copies(v: Value, k: nat): (r: seq<Value>)
    ensures |r| == k
  {
    seq(k, _ => v)
  }

  /** The values of a length written in binary below a whole note: `wholes`
      whole notes, then `h` halves, `q` quarters, `e` eighths, `s` sixteenths. */
  function Binary(wholes: nat, h: nat, q: nat, e: nat, s: nat): (r: seq<Value>)
    ensures |r| == wholes + h + q + e + s
  {
    Copies(Whole, wholes) + (Copies(Half, h) + (Copies(Quarter, q) + (Copies(Eighth, e) + Copies(Sixteenth, s))))
  }

  /** The greedy decomposition of `n` is, in this order, some whole notes and
      at most one each of the shorter values: `n` written in binary below a
      whole note. */
  lemma {:induction false} GreedyDigits(n: nat) returns (wholes: nat, h: nat, q: nat, e: nat, s: nat)
    ensures h <= 1 && q <= 1 && e <= 1 && s <= 1
    ensures n == 16 * wholes + 8 * h + 4 * q + 2 * e + s
    ensures Greedy(n) == Binary(wholes, h, q, e, s)
    ensures |Greedy(n)| == wholes + h + q + e + s
  {
    if n == 0 {
      return 0, 0, 0, 0, 0;
    }
    if n >= 16 {
      wholes, h, q, e, s := GreedyDigits(n - 16);
      GreedyWholeStep(n, wholes, h, q, e, s);
      wholes := wholes + 1;
    } else if n >= 8 {
      wholes, h, q, e, s := GreedyDigits(n - 8);
      assert wholes == 0 && h == 0;
      GreedyHalfStep(n, q, e, s);
      h := 1;
    } else if n >= 4 {
      wholes, h, q, e, s := GreedyDigits(n - 4);
      assert wholes == 0 && h == 0 && q == 0;
      GreedyQuarterStep(n, e, s);
      q := 1;
    } else if n >= 2 {
      wholes, h, q, e, s := GreedyDigits(n - 2);
      assert wholes == 0 && h == 0 && q == 0 && e == 0;
      GreedyEighthStep(n, s);
      e := 1;
    } else {
      wholes, h, q, e, s := GreedyDigits(n - 1);
      assert wholes == 0 && h == 0 && q == 0 && e == 0 && s == 0;
      assert Greedy(n) == [Sixteenth] + Greedy(n - 1);
      assert Binary(0, 0, 0, 0, 1) == [Sixteenth];
      s := 1;
    }
  }

  // One greedy step per value: the value chosen goes in front of the digits
  // of what is left.

  lemma GreedyWholeStep(n: nat, wholes: nat, h: nat, q: nat, e: nat, s: nat)
    requires n >= 16 && Greedy(n - 16) == Binary(wholes, h, q, e, s)
    ensures Greedy(n) == Binary(wholes + 1, h, q, e, s)
  {
    assert Greedy(n) == [Whole] + Greedy(n - 16);
    CopiesCons(Whole, wholes, Copies(Half, h) + (Copies(Quarter, q) + (Copies(Eighth, e) + Copies(Sixteenth, s))));
  }

  lemma GreedyHalfStep(n: nat, q: nat, e: nat, s: nat)
    requires 8 <= n < 16 && Greedy(n - 8) == Binary(0, 0, q, e, s)
    ensures Greedy(n) == Binary(0, 1, q, e, s)
  {
    var rest := Copies(Quarter, q) + (Copies(Eighth, e) + Copies(Sixteenth, s));
    assert Greedy(n) == [Half] + Greedy(n - 8);
    LeadingNone(Whole, Copies(Half, 0) + rest);
    LeadingNone(Half, rest);
    LeadingNone(Whole, Copies(Half, 1) + rest);
    CopiesCons(Half, 0, rest);
  }

  lemma GreedyQuarterStep(n: nat, e: nat, s: nat)
    requires 4 <= n < 8 && Greedy(n - 4) == Binary(0, 0, 0, e, s)
    ensures Greedy(n) == Binary(0, 0, 1, e, s)
  {
    var rest := Copies(Eighth, e) + Copies(Sixteenth, s);
    assert Greedy(n) == [Quarter] + Greedy(n - 4);
    LeadingNone(Whole, Copies(Half, 0) + (Copies(Quarter, 0) + rest));
    LeadingNone(Half, Copies(Quarter, 0) + rest);
    LeadingNone(Quarter, rest);
    LeadingNone(Whole, Copies(Half, 0) + (Copies(Quarter, 1) + rest));
    LeadingNone(Half, Copies(Quarter, 1) + rest);
    CopiesCons(Quarter, 0, rest);
  }

  lemma GreedyEighthStep(n: nat, s: nat)
    requires 2 <= n < 4 && Greedy(n - 2) == Binary(0, 0, 0, 0, s)
    ensures Greedy(n) == Binary(0, 0, 0, 1, s)
  {
    var rest := Copies(Sixteenth, s);
    assert Greedy(n) == [Eighth] + Greedy(n - 2);
    assert Binary(0, 0, 0, 0, s) == rest && Binary(0, 0, 0, 1, s) == [Eighth] + rest by {
      LeadingNone(Eighth, rest);
      LeadingNone(Quarter, rest);
      LeadingNone(Half, rest);
      LeadingNone(Whole, rest);
      assert Copies(Eighth, 1) == [Eighth];
      LeadingNone(Quarter, [Eighth] + rest);
      LeadingNone(Half, [Eighth] + rest);
      LeadingNone(Whole, [Eighth] + rest);
    }
  }

  /** No copies in front leave a sequence unchanged. */
  lemma LeadingNone(v: Value, rest: seq<Value>)
    ensures Copies(v, 0) + rest == rest
  {
    assert Copies(v, 0) == [];
  }

  /** One more copy in front of a run of copies. */
  lemma CopiesCons(v: Value, k: nat, rest: seq<Value>)
    ensures [v] + (Copies(v, k) + rest) == Copies(v, k + 1) + rest
  {
    assert [v] + Copies(v, k) == Copies(v, k + 1);
  }

  /** Adding one note to a length raises the greedy count by at most one. */
  lemma GreedyCountStep(m: nat, v: Value)
    ensures |Greedy(m + Weight(v))| <= |Greedy(m)| + 1
  {
    var w := Weight(v);
    var wholes, h, q, e, s := GreedyDigits(m);
    var wholes', h', q', e', s' := GreedyDigits(m + w);
    DigitsStep(w, wholes, h, q, e, s, wholes', h', q', e', s');
  }

  /** Binary carrying: adding a power of two up to 16 to a number adds at most
      one to its count of whole notes plus lower binary digits. */
  lemma DigitsStep(w: nat, wholes: nat, h: nat, q: nat, e: nat, s: nat,
                   wholes': nat, h': nat, q': nat, e': nat, s': nat)
    requires w == 1 || w == 2 || w == 4 || w == 8 || w == 16
    requires h <= 1 && q <= 1 && e <= 1 && s <= 1
    requires h' <= 1 && q' <= 1 && e' <= 1 && s' <= 1
    requires 16 * wholes + 8 * h + 4 * q + 2 * e + s + w == 16 * wholes' + 8 * h' + 4 * q' + 2 * e' + s'
    ensures wholes' + h' + q' + e' + s' <= wholes + h + q + e + s + 1
  {
    if w == 16 {
    } else if w == 8 {
    } else if w == 4 {
    } else if w == 2 {
    } else {
    }
  }

  /** No sequence of standard values with the same total is shorter than the
      greedy decomposition: it uses the minimal number of notes. */
  lemma {:induction false} GreedyOptimal(vs: seq<Value>)
    ensures |Greedy(Total(vs))| <= |vs|
  {
    if vs != [] {
      GreedyOptimal(vs[1..]);
      GreedyCountStep(Total(vs[1..]), vs[0]);
    }
  }
}
