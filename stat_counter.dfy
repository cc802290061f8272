/** The stat counters (script.js:358-393). The target is read from the
    counter's text by deleting every non-digit (`replace(/\D/g, '')`) and
    converting with unary `+`; the counter then climbs in steps of
    `target / 20`, rounded up, re-reading its own text each 50 ms tick, and
    finally shows exactly the target. Each value is shown followed by `+`.

    `count` is always a whole number, so `Math.ceil(count + target / 20)` is
    `count + Step(target)` with `Step(target) = ceil(target / 20)`: the model
    is exact integer arithmetic. */
module StatCounter {

  /** The class `[0-9]`: the characters `\D` does not match. */
  predicate IsDigit(c: char)
  {
    '0' <= c <= '9'
  }

  predicate AllDigits(s: string)
  {
    forall k :: 0 <= k < |s| ==> IsDigit(s[k])
  }

  /** `s.replace(/\D/g, '')`: the digits of `s`, in order. */
  function Digits(s: string): (r: string)
    ensures AllDigits(r)
  {
    if s == [] then []
    else Digits(s[..|s| - 1]) + (if IsDigit(s[|s| - 1]) then [s[|s| - 1]] else [])
  }

  /** Deleting the non-digits works piecewise: the digits of `a + b` are
      the digits of `a` followed by those of `b`. */
  lemma {:induction false} DigitsConcat(a: string, b: string)
    ensures Digits(a + b) == Digits(a) + Digits(b)
    decreases |b|
  {
    if b == [] {
      assert a + b == a;
    } else {
      var init := b[..|b| - 1];
      assert (a + b)[..|a + b| - 1] == a + init;
      assert (a + b)[|a + b| - 1] == b[|b| - 1];
      DigitsConcat(a, init);
    }
  }

  /** A single character is kept exactly when it is a digit. */
  lemma DigitsOfChar(c: char)
    ensures Digits([c]) == (if IsDigit(c) then [c] else [])
  {
    assert [c][..0] == [];
  }

  /** A text without digits leaves nothing, so it parses as 0. */
  lemma {:induction false} DigitsOfNonDigits(s: string)
    requires forall k :: 0 <= k < |s| ==> !IsDigit(s[k])
    ensures Digits(s) == [] && ParseCount(s) == 0
  {
    if s != [] {
      DigitsOfNonDigits(s[..|s| - 1]);
    }
  }

  /** The value of a decimal digit string; `Number('')` is 0. */
  function DecimalValue(ds: string): nat
    requires AllDigits(ds)
  {
    if ds == [] then 0
    else DecimalValue(ds[..|ds| - 1]) * 10 + ((ds[|ds| - 1] as int) - ('0' as int))
  }

  /** `+text.replace(/\D/g, '')`. */
  function ParseCount(text: string): nat
  {
    DecimalValue(Digits(text))
  }

  function DigitChar(d: nat): (c: char)
    requires d < 10
    ensures IsDigit(c) && (c as int) - ('0' as int) == d
  {
    ('0' as int + d) as char
  }

  /** `String(n)`: the decimal digits of `n`, without leading zeros. */
  function Decimal(n: nat): (r: string)
    ensures |r| > 0 && AllDigits(r)
    ensures |r| > 1 ==> r[0] != '0'
  {
    if n < 10 then [DigitChar(n)] else Decimal(n / 10) + [DigitChar(n % 10)]
  }

  /** The counter's text for value `n`: `n + '+'`. */
  function Display(n: nat): string
  {
    Decimal(n) + "+"
  }

  /** Deleting the non-digits of a digit string changes nothing. */
  lemma {:induction false} DigitsOfDigits(s: string)
    requires AllDigits(s)
    ensures Digits(s) == s
  {
    if s != [] {
      DigitsOfDigits(s[..|s| - 1]);
    }
  }

  /** Reading a decimal numeral back gives the number. */
  lemma {:induction false} DecimalRoundTrip(n: nat)
    ensures DecimalValue(Decimal(n)) == n
  {
    if n >= 10 {
      DecimalRoundTrip(n / 10);
      var ds := Decimal(n);
      assert ds[..|ds| - 1] == Decimal(n / 10);
    }
  }

  /** Re-parsing the displayed `n + '+'` yields `n`: the tick that reads the
      counter's text sees the value the previous tick wrote. */
  lemma ParseDisplay(n: nat)
    ensures ParseCount(Display(n)) == n
  {
    var d := Decimal(n);
    var s := Display(n);
    assert s[..|s| - 1] == d;
    assert Digits(s) == Digits(d);
    DigitsOfDigits(d);
    DecimalRoundTrip(n);
  }

  /** `ceil(target / 20)`, the step of the climb. */
  function Step(target: nat): (s: nat)
    ensures target == 0 ==> s == 0
    ensures target > 0 ==> 20 * (s - 1) < target <= 20 * s
  {
    (target + 19) / 20
  }

  /** `Math.ceil(count + target / 20)` is `count + Step(target)`: it is at
      least `count + target / 20` and less than one above it. */
  lemma CeilingIsCountPlusStep(count: nat, target: nat)
    ensures (count + Step(target)) as real >= count as real + target as real / 20.0
    ensures ((count + Step(target)) as real) - 1.0 < count as real + target as real / 20.0
  {
    var s := Step(target);
    assert (s as real) * 20.0 >= target as real;
    assert ((s as real) - 1.0) * 20.0 < target as real;
  }

  /** The values the counter shows from `count` on: while below the target it
      adds one step; then it shows the target itself. */
  function CountUp(count: nat, target: nat): (r: seq<nat>)
    ensures |r| > 0 && r[|r| - 1] == target
    decreases target - count
  {
    if count < target then [count + Step(target)] + CountUp(count + Step(target), target)
    else [target]
  }

  /** The shape of the climb from `count`: the first value is one step
      above `count` and each later one, up to the final snap, is one step
      above the one before; all but the last two are below the target; the
      value just before the snap is at least the target but overshoots it by
      less than one step; and a counter already at or past the target just
      shows the target. */
  lemma {:induction false} CountUpShape(count: nat, target: nat)
    ensures |CountUp(count, target)| > 1 ==> CountUp(count, target)[0] == count + Step(target)
    ensures forall i :: 0 < i < |CountUp(count, target)| - 1 ==>
      CountUp(count, target)[i] == CountUp(count, target)[i - 1] + Step(target)
    ensures forall i :: 0 <= i < |CountUp(count, target)| - 2 ==> CountUp(count, target)[i] < target
    ensures |CountUp(count, target)| > 1 ==>
      target <= CountUp(count, target)[|CountUp(count, target)| - 2] < target + Step(target)
    ensures count >= target <==> CountUp(count, target) == [target]
    decreases target - count
  {
    var s := Step(target);
    if count < target {
      var next := count + s;
      CountUpShape(next, target);
      var r := CountUp(count, target);
      var rest := CountUp(next, target);
      assert r == [next] + rest;
      forall i | 1 < i < |r| - 1 ensures r[i] == r[i - 1] + s {
        assert r[i] == rest[i - 1] && r[i - 1] == rest[i - 2];
      }
      if |rest| == 1 {
        assert r[|r| - 2] == next;
      }
    }
  }

  /** Closed form: the `i`-th value before the snap is
      `count + (i + 1) * Step(target)`. */
  lemma {:induction false} CountUpValueAt(count: nat, target: nat, i: nat)
    requires i < |CountUp(count, target)| - 1
    ensures CountUp(count, target)[i] == count + (i + 1) * Step(target)
    decreases target - count
  {
    var s := Step(target);
    assert count < target;
    var r, rest := CountUp(count, target), CountUp(count + s, target);
    assert r == [count + s] + rest;
    if i > 0 {
      assert r[i] == rest[i - 1];
      CountUpValueAt(count + s, target, i - 1);
      assert (i + 1) * s == i * s + s;
    }
  }

  /** The values strictly increase up to the final snap. */
  lemma {:induction false} IncreasingUntilSnap(count: nat, target: nat)
    ensures forall i, j :: 0 <= i < j < |CountUp(count, target)| - 1 ==>
      CountUp(count, target)[i] < CountUp(count, target)[j]
    decreases target - count
  {
    if count < target {
      var s := Step(target);
      var next := count + s;
      IncreasingUntilSnap(next, target);
      var r := CountUp(count, target);
      var rest := CountUp(next, target);
      assert forall a, b :: 0 <= a < b < |rest| - 1 ==> rest[a] < rest[b];
      assert r == [next] + rest;
      assert s > 0;
      if |rest| > 1 {
        assert rest[0] == next + s;
      }
      forall i, j | 0 <= i < j < |r| - 1 ensures r[i] < r[j] {
        if i > 0 {
          assert r[i] == rest[i - 1] && r[j] == rest[j - 1];
        } else {
          assert r[j] == rest[j - 1];
          if j > 1 {
            assert rest[0] < rest[j - 1];
          }
        }
      }
    }
  }

  /** If `k` steps take `count` to the target, the climb shows at most `k`
      increments before the snap. */
  lemma {:induction false} CountUpWithin(count: nat, target: nat, k: nat)
    requires count + k * Step(target) >= target
    ensures |CountUp(count, target)| <= k + 1
    decreases k
  {
    if count < target {
      var s := Step(target);
      assert k > 0;
      assert (count + s) + (k - 1) * s == count + k * s;
      CountUpWithin(count + s, target, k - 1);
    }
  }

  /** If exactly `k` steps are needed to take `count` to the target, the
      climb shows exactly `k` increments and the snap. */
  lemma {:induction false} CountUpLength(count: nat, target: nat, k: nat)
    requires count + k * Step(target) >= target
    requires k > 0 ==> count + (k - 1) * Step(target) < target
    ensures |CountUp(count, target)| == k + 1
    decreases k
  {
    var s := Step(target);
    if count < target {
      assert (count + s) + (k - 1) * s == count + k * s;
      if k > 1 {
        assert (count + s) + (k - 2) * s == count + (k - 1) * s;
      }
      CountUpLength(count + s, target, k - 1);
    }
  }

  /** From zero the climb ends after at most 20 increments and the snap. */
  lemma CountFromZeroWithin20Steps(target: nat)
    ensures |CountUp(0, target)| <= 21
  {
    CountUpWithin(0, target, 20);
  }

  /** `Decimal(150)` is the text `"150"`. */
  lemma Decimal150()
    ensures Display(150) == "150+"
  {
    assert Decimal(1) == "1";
    assert Decimal(15) == "15";
    assert Decimal(150) == "150";
  }

  /** The counter `"150+"` read as written: the handler parses the target
      and then, from the same text, the starting count, so the count already
      equals the target and the first tick shows `"150+"` and stops. */
  lemma AsWrittenCounterJumpsToTarget()
    ensures ParseCount("150+") == 150
    ensures CountUp(ParseCount("150+"), ParseCount("150+")) == [150]
  {
    Decimal150();
    ParseDisplay(150);
  }

  /** The intended climb for `"150+"`, starting from zero: steps of 8, 19
      increments up to 152, then the snap to 150. */
  lemma CountFrom150Example(target: nat)
    requires target == 150
    ensures Step(target) == 8
    ensures |CountUp(0, target)| == 20
    ensures CountUp(0, target)[0] == 8 && CountUp(0, target)[17] == 144
    ensures CountUp(0, target)[18] == 152 && CountUp(0, target)[19] == 150
  {
    CountFrom150Length(target);
    CountFrom150Value(target, 0);
    CountFrom150Value(target, 17);
    CountFrom150Value(target, 18);
  }

  /** Before the snap, the `i`-th value of the climb to 150 is `8 * (i + 1)`. */
  lemma CountFrom150Value(target: nat, i: nat)
    requires target == 150 && i < 19
    ensures i < |CountUp(0, target)| - 1 && CountUp(0, target)[i] == 8 * (i + 1)
  {
    assert Step(target) == 8;
    CountFrom150Length(target);
    CountUpValueAt(0, target, i);
  }

  /** From zero to 150 the counter shows 19 increments and the snap. */
  lemma CountFrom150Length(target: nat)
    requires target == 150
    ensures |CountUp(0, target)| == 20
  {
    assert Step(target) == 8;
    CountUpLength(0, target, 19);
  }

  class Counter {
    /** `counter.innerText`. */
    var text: string
    /** The target read when the animation started. */
    var target: nat
    /** The counter observer still observes this counter. */
    var observing: bool
    /** Every value the animation has written to `text`, in order. */
    ghost var shown: seq<nat>

    constructor (text: string)
      ensures this.text == text && observing && shown == []
    {
      this.text := text;
      target := 0;
      observing := true;
      shown := [];
    }

    /** `updateCount` with its chain of 50 ms ticks run to the end: each tick
        re-reads the count from the text, writes `count + Step(target)` while
        below the target, and otherwise writes the target. */
    method UpdateCount()
      modifies this
      ensures text == Display(target) && target == old(target)
      ensures shown == old(shown) + CountUp(ParseCount(old(text)), target)
      ensures observing == old(observing)
    {
      var count := ParseCount(text);
      while count < target
        invariant count == ParseCount(text) && target == old(target)
        invariant observing == old(observing)
        invariant old(shown) + CountUp(ParseCount(old(text)), target) == shown + CountUp(count, target)
        decreases target - count
      {
        var next := count + Step(target);
        text := Display(next);
        shown := shown + [next];
        ParseDisplay(next);
        count := ParseCount(text);
      }
      text := Display(target);
      shown := shown + [target];
    }

    /** `updateCounter` as the page has it: the target and the starting
        count are both read from the current text, so the climb is empty and
        the counter shows the target at once. */
    method StartAsWritten()
      modifies this
      ensures target == ParseCount(old(text)) && text == Display(target)
      ensures shown == old(shown) + [target]
      ensures observing == old(observing)
    {
      target := ParseCount(text);
      UpdateCount();
    }

    /** `updateCounter` as intended: read the target, reset the display to
        `0+`, then climb. The counter shows `0+`, then at most 20 increasing
        values, then exactly the target. */
    method Start()
      modifies this
      ensures target == ParseCount(old(text)) && text == Display(target)
      ensures shown == old(shown) + [0] + CountUp(0, target)
      ensures observing == old(observing)
    {
      target := ParseCount(text);
      text := Display(0);
      shown := shown + [0];
      ParseDisplay(0);
      UpdateCount();
    }

    /** An intersection entry for this counter, as the page handles it: the
        first one that is intersecting runs `updateCounter` and stops the
        observation, so the counter shows its own target at once. */
    method Intersect(isIntersecting: bool)
      modifies this
      ensures observing == (old(observing) && !isIntersecting)
      ensures old(observing) && isIntersecting ==>
        && target == ParseCount(old(text)) && text == Display(target)
        && shown == old(shown) + [ParseCount(old(text))]
      ensures !(old(observing) && isIntersecting) ==> unchanged(this)
    {
      if observing && isIntersecting {
        StartAsWritten();
        observing := false;
      }
    }

    /** The same entry with the corrected `Start`: the counter climbs from
        `0+` to its target. */
    method IntersectIntended(isIntersecting: bool)
      modifies this
      ensures observing == (old(observing) && !isIntersecting)
      ensures old(observing) && isIntersecting ==>
        && target == ParseCount(old(text)) && text == Display(target)
        && shown == old(shown) + [0] + CountUp(0, target)
      ensures !(old(observing) && isIntersecting) ==> unchanged(this)
    {
      if observing && isIntersecting {
        Start();
        observing := false;
      }
    }
  }
}
