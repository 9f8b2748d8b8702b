/**
 Snapshot identities are the version 7 UUIDs of section 5.7 of RFC 9562, written as 32
 hexadecimal digits. The modules beside this one read them as numbers; this one shows that
 the text order and the embedded timestamp agree with the number.
 */
module SnapshotIdentity {
  const MAXIMUM_SAFE_INTEGER: nat := 9007199254740991

  /** Two to the eightieth: everything below the timestamp. */
  const RANDOM_BITS: nat := 0x1_0000_0000_0000_0000_0000

  predicate AreDigits(digits: seq<nat>) {
    forall i :: 0 <= i < |digits| ==> digits[i] < 16
  }

  predicate IsUuidV7(digits: seq<nat>) {
    |digits| == 32 && AreDigits(digits) && digits[12] == 7 && 8 <= digits[16] <= 11
  }

  function Value(digits: seq<nat>): nat {
    if digits == [] then 0 else Value(digits[..|digits| - 1]) * 16 + digits[|digits| - 1]
  }

  function Power(n: nat): (r: nat)
    ensures r > 0
  {
    if n == 0 then 1 else 16 * Power(n - 1)
  }

  /** The first twelve digits are the milliseconds since the epoch. */
  function TextTimestamp(digits: seq<nat>): nat
    requires IsUuidV7(digits)
  {
    Value(digits[..12])
  }

  /** Text order: at the first differing digit the smaller digit comes first. */
  predicate Before(left: seq<nat>, right: seq<nat>)
    requires |left| == |right|
  {
    left != [] &&
    (left[0] < right[0] || (left[0] == right[0] && Before(left[1..], right[1..])))
  }

  lemma {:induction false} SplitValue(front: seq<nat>, back: seq<nat>)
    ensures Value(front + back) == Value(front) * Power(|back|) + Value(back)
  {
    if back == [] {
      assert front + back == front;
    } else {
      var n := |back| - 1;
      SplitValue(front, back[..n]);
      assert (front + back)[..|front| + n] == front + back[..n];
      Regroup(Value(front), Power(n), Value(back[..n]), back[n]);
    }
  }

  lemma Regroup(front: nat, power: nat, back: nat, digit: nat)
    ensures (front * power + back) * 16 + digit == front * (16 * power) + (back * 16 + digit)
  {
  }

  lemma {:induction false} ValueBound(digits: seq<nat>)
    requires AreDigits(digits)
    ensures Value(digits) < Power(|digits|)
  {
    if digits != [] {
      ValueBound(digits[..|digits| - 1]);
    }
  }

  lemma Scaled(gap: nat, power: nat)
    requires gap > 0
    ensures gap * power >= power
  {
    assert gap * power == (gap - 1) * power + power;
  }

  lemma Spread(a: nat, b: nat, power: nat, x: nat, y: nat)
    requires a < b && x < power
    ensures a * power + x < b * power + y
  {
    Scaled(b - a, power);
    assert b * power == a * power + (b - a) * power;
  }

  /** Text order is the order of the numbers. */
  lemma {:induction false} TextOrderIsNumberOrder(left: seq<nat>, right: seq<nat>)
    requires |left| == |right| && AreDigits(left) && AreDigits(right)
    ensures Before(left, right) <==> Value(left) < Value(right)
    decreases |left|
  {
    if left != [] {
      var n := |left| - 1;
      assert left == [left[0]] + left[1..] && right == [right[0]] + right[1..];
      SplitValue([left[0]], left[1..]);
      SplitValue([right[0]], right[1..]);
      assert Value([left[0]]) == left[0] && Value([right[0]]) == right[0];
      ValueBound(left[1..]);
      ValueBound(right[1..]);
      if left[0] < right[0] {
        Spread(left[0], right[0], Power(n), Value(left[1..]), Value(right[1..]));
      } else if right[0] < left[0] {
        Spread(right[0], left[0], Power(n), Value(right[1..]), Value(left[1..]));
      } else {
        TextOrderIsNumberOrder(left[1..], right[1..]);
      }
    }
  }

  /** The timestamp is the number without its last twenty digits. */
  lemma TimestampIsThePrefix(digits: seq<nat>)
    requires IsUuidV7(digits)
    ensures TextTimestamp(digits) == Value(digits) / RANDOM_BITS
    ensures TextTimestamp(digits) < 0x1_0000_0000_0000 <= MAXIMUM_SAFE_INTEGER
  {
    assert digits == digits[..12] + digits[12..];
    SplitValue(digits[..12], digits[12..]);
    ValueBound(digits[12..]);
    ValueBound(digits[..12]);
    assert Power(20) == RANDOM_BITS && Power(12) == 0x1_0000_0000_0000;
    DivideBack(TextTimestamp(digits), RANDOM_BITS, Value(digits[12..]));
  }

  lemma DivideBack(quotient: nat, power: nat, rest: nat)
    requires rest < power
    ensures (quotient * power + rest) / power == quotient
  {
    var n := quotient * power + rest;
    var q := n / power;
    assert n == q * power + n % power;
    if q < quotient {
      Spread(q, quotient, power, n % power, rest);
    } else if q > quotient {
      Spread(quotient, q, power, rest, n % power);
    }
  }

  /** A later identity never carries an earlier timestamp. */
  lemma TimestampFollowsOrder(left: seq<nat>, right: seq<nat>)
    requires IsUuidV7(left) && IsUuidV7(right) && !Before(left, right)
    ensures TextTimestamp(left) >= TextTimestamp(right)
  {
    TextOrderIsNumberOrder(left, right);
    TimestampIsThePrefix(left);
    TimestampIsThePrefix(right);
    QuotientOrder(Value(right), Value(left), RANDOM_BITS);
  }

  lemma QuotientOrder(small: nat, large: nat, power: nat)
    requires power > 0 && small <= large
    ensures small / power <= large / power
  {
    if large / power < small / power {
      Spread(large / power, small / power, power, large % power, small % power);
    }
  }

  // ---------------------------------------------------------------- the written form

  const HYPHEN: nat := 45

  /** The lengths of the five hyphenated groups. */
  const GROUPS: seq<nat> := [8, 4, 4, 4, 12]

  /** The character of a lowercase hexadecimal digit. */
  function Code(digit: nat): nat
    requires digit < 16
  {
    if digit < 10 then 48 + digit else 87 + digit
  }

  function Codes(digits: seq<nat>): (r: seq<nat>)
    requires AreDigits(digits)
    ensures |r| == |digits| && forall i :: 0 <= i < |r| ==> r[i] == Code(digits[i])
  {
    if digits == [] then [] else [Code(digits[0])] + Codes(digits[1..])
  }

  /** Digits in hyphenated groups; what is left over forms the last group. */
  function Written(digits: seq<nat>, groups: seq<nat>): seq<nat>
    requires AreDigits(digits)
    decreases |groups|
  {
    if |groups| <= 1 || groups[0] >= |digits| then Codes(digits)
    else Codes(digits[..groups[0]]) + ([HYPHEN] + Written(digits[groups[0]..], groups[1..]))
  }

  function WithoutHyphens(text: seq<nat>): seq<nat> {
    if text == [] then [] else (if text[0] == HYPHEN then [] else [text[0]]) + WithoutHyphens(text[1..])
  }

  lemma {:induction false} BeforeOfConcat(a: seq<nat>, b: seq<nat>, x: seq<nat>, y: seq<nat>)
    requires |a| == |b| && |x| == |y|
    ensures Before(a + x, b + y) <==> Before(a, b) || (a == b && Before(x, y))
    decreases |a|
  {
    if a == [] {
      assert a + x == x && b + y == y;
    } else {
      assert (a + x)[1..] == a[1..] + x && (b + y)[1..] == b[1..] + y;
      BeforeOfConcat(a[1..], b[1..], x, y);
      assert a == [a[0]] + a[1..] && b == [b[0]] + b[1..];
    }
  }

  lemma {:induction false} CodesKeepOrder(left: seq<nat>, right: seq<nat>)
    requires |left| == |right| && AreDigits(left) && AreDigits(right)
    ensures Before(Codes(left), Codes(right)) <==> Before(left, right)
    ensures Codes(left) == Codes(right) <==> left == right
    decreases |left|
  {
    if left != [] {
      CodesKeepOrder(left[1..], right[1..]);
      assert left == [left[0]] + left[1..] && right == [right[0]] + right[1..];
      assert Codes(left)[1..] == Codes(left[1..]) && Codes(right)[1..] == Codes(right[1..]);
      assert Codes(left)[0] == Code(left[0]) && Codes(right)[0] == Code(right[0]);
    }
  }

  lemma {:induction false} WrittenLength(left: seq<nat>, right: seq<nat>, groups: seq<nat>)
    requires |left| == |right| && AreDigits(left) && AreDigits(right)
    ensures |Written(left, groups)| == |Written(right, groups)|
    decreases |groups|
  {
    if |groups| > 1 && groups[0] < |left| {
      WrittenLength(left[groups[0]..], right[groups[0]..], groups[1..]);
    }
  }

  lemma HyphenKeepsOrder(x: seq<nat>, y: seq<nat>)
    requires |x| == |y|
    ensures Before([HYPHEN] + x, [HYPHEN] + y) <==> Before(x, y)
  {
    BeforeOfConcat([HYPHEN], [HYPHEN], x, y);
    assert !Before([HYPHEN], [HYPHEN]);
  }

  /** Hyphens stand at the same places, so the written forms are ordered as the digits are. */
  lemma {:induction false} WrittenOrderIsDigitOrder(left: seq<nat>, right: seq<nat>, groups: seq<nat>)
    requires |left| == |right| && AreDigits(left) && AreDigits(right)
    ensures |Written(left, groups)| == |Written(right, groups)|
    ensures Before(Written(left, groups), Written(right, groups)) <==> Before(left, right)
    decreases |groups|
  {
    WrittenLength(left, right, groups);
    if |groups| <= 1 || groups[0] >= |left| {
      CodesKeepOrder(left, right);
    } else {
      var n := groups[0];
      var x, y := Written(left[n..], groups[1..]), Written(right[n..], groups[1..]);
      WrittenOrderIsDigitOrder(left[n..], right[n..], groups[1..]);
      CodesKeepOrder(left[..n], right[..n]);
      HyphenKeepsOrder(x, y);
      BeforeOfConcat(Codes(left[..n]), Codes(right[..n]), [HYPHEN] + x, [HYPHEN] + y);
      BeforeOfConcat(left[..n], right[..n], left[n..], right[n..]);
      assert left == left[..n] + left[n..] && right == right[..n] + right[n..];
    }
  }

  lemma {:induction false} NoHyphensInCodes(digits: seq<nat>, rest: seq<nat>)
    requires AreDigits(digits)
    ensures WithoutHyphens(Codes(digits) + rest) == Codes(digits) + WithoutHyphens(rest)
    decreases |digits|
  {
    if digits == [] {
      assert Codes(digits) + rest == rest;
    } else {
      NoHyphensInCodes(digits[1..], rest);
      assert (Codes(digits) + rest)[1..] == Codes(digits[1..]) + rest;
    }
  }

  lemma CodesOfSplit(digits: seq<nat>, n: nat)
    requires AreDigits(digits) && n <= |digits|
    ensures Codes(digits) == Codes(digits[..n]) + Codes(digits[n..])
  {
  }

  lemma HyphenComesOff(rest: seq<nat>)
    ensures WithoutHyphens([HYPHEN] + rest) == WithoutHyphens(rest)
  {
    assert ([HYPHEN] + rest)[1..] == rest;
  }

  /** Removing the hyphens leaves the digits, of which the first twelve are the timestamp. */
  lemma {:induction false} HyphensComeOff(digits: seq<nat>, groups: seq<nat>)
    requires AreDigits(digits)
    ensures WithoutHyphens(Written(digits, groups)) == Codes(digits)
    decreases |groups|
  {
    if |groups| <= 1 || groups[0] >= |digits| {
      NoHyphensInCodes(digits, []);
      assert Codes(digits) + [] == Codes(digits);
    } else {
      var n := groups[0];
      var rest := Written(digits[n..], groups[1..]);
      HyphensComeOff(digits[n..], groups[1..]);
      NoHyphensInCodes(digits[..n], [HYPHEN] + rest);
      HyphenComesOff(rest);
      CodesOfSplit(digits, n);
    }
  }

  /** The order of the written identities is the order of their numbers. */
  lemma IdentityOrderIsNumberOrder(left: seq<nat>, right: seq<nat>)
    requires IsUuidV7(left) && IsUuidV7(right)
    ensures |Written(left, GROUPS)| == |Written(right, GROUPS)|
    ensures Before(Written(left, GROUPS), Written(right, GROUPS)) <==> Value(left) < Value(right)
  {
    WrittenOrderIsDigitOrder(left, right, GROUPS);
    TextOrderIsNumberOrder(left, right);
  }
}
