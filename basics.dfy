/**
 * Shared vocabulary of the Werewolf rules engine: optional values, the
 * factions and phases of a game, the result object the engine returns, and
 * the few string operations the engine's messages and history entries use.
 */
module Basics {

  datatype Option<T> = None | Some(value: T)

  /**
   * One key of a JavaScript object literal: missing, present with the value
   * `undefined`, or present with a value. The distinction matters wherever
   * the source tests a key with `in`.
   */
  datatype Field<T> = Absent | Undefined | Given(value: T)

  type PlayerId = string

  /** The factions of enums.ts, in declaration order. */
  datatype Faction = Villager | Werewolf | Solo | Lovers

  /** The game phases of enums.ts. */
  datatype GamePhase = Setup | Night | DayDiscuss | DayVote | DayDefense | DayLastWord | Finished

  /** The `{ success, message }` object every engine operation returns. */
  datatype ActionResult = ActionResult(success: bool, message: string)

  /**
   * How an engine call ends: it returns a result, or a JavaScript TypeError
   * escapes from it.
   */
  datatype Outcome = Returns(result: ActionResult) | Throws(error: string)

  /** JavaScript truthiness of a string: only the empty string is falsy. */
  predicate Truthy(s: string)
  {
    s != ""
  }

  /** JavaScript truthiness of an optional id (`null` is falsy). */
  predicate TruthyId(id: Option<PlayerId>)
  {
    id.Some? && Truthy(id.value)
  }

  /** `x || null` for an optional string: a falsy value becomes `null`. */
  function OrNull(x: Option<string>): (r: Option<string>)
    ensures r.Some? <==> TruthyId(x)
    ensures r.Some? ==> r == x
  {
    if TruthyId(x) then x else None
  }

  /** Appending to a log that was itself extended: the grouping does not matter. */
  lemma AppendAssoc<T>(a: seq<T>, b: seq<T>, c: seq<T>)
    ensures (a + b) + c == a + (b + c)
  {
  }
}

/**
 * Decimal rendering of counts (as JavaScript's `String(n)` does for
 * non-negative integers) and the `Array.join` the history uses, each with the
 * parser that inverts it.
 */
module Text {

  predicate IsDigit(c: char)
  {
    '0' <= c <= '9'
  }

  predicate AllDigits(s: string)
  {
    forall i :: 0 <= i < |s| ==> IsDigit(s[i])
  }

  function Digit(d: nat): (c: char)
    requires d < 10
    ensures IsDigit(c)
  {
    "0123456789"[d]
  }

  function DigitValue(c: char): (d: nat)
    requires IsDigit(c)
    ensures d < 10
  {
    (c as int) - ('0' as int)
  }

  /** `String(n)` for a natural number: no leading zeros, at least one digit. */
  function Dec(n: nat): (s: string)
    ensures 1 <= |s| && AllDigits(s)
    ensures |s| > 1 ==> s[0] != '0'
  {
    if n < 10 then [Digit(n)] else Dec(n / 10) + [Digit(n % 10)]
  }

  /** The value of a string of decimal digits (the empty string reads as 0). */
  function DecValue(s: string): nat
    requires AllDigits(s)
  {
    if s == [] then 0 else DecValue(s[..|s| - 1]) * 10 + DigitValue(s[|s| - 1])
  }

  lemma {:induction false} DecRoundTrip(n: nat)
    ensures DecValue(Dec(n)) == n
  {
    if n >= 10 {
      var s := Dec(n);
      assert s[..|s| - 1] == Dec(n / 10);
      DecRoundTrip(n / 10);
    }
  }

  /** Leading zeros do not change the value of a digit string. */
  lemma {:induction false} DecValueLeadingZero(s: string)
    requires AllDigits(s)
    ensures AllDigits("0" + s) && DecValue("0" + s) == DecValue(s)
  {
    if s != [] {
      var t := "0" + s;
      assert t[..|t| - 1] == "0" + s[..|s| - 1];
      DecValueLeadingZero(s[..|s| - 1]);
    }
  }

  /** `parts.join(sep)`. */
  function Join(parts: seq<string>, sep: string): (r: string)
    ensures |parts| == 1 ==> r == parts[0]
  {
    if |parts| == 0 then ""
    else if |parts| == 1 then parts[0]
    else parts[0] + sep + Join(parts[1..], sep)
  }

  /** `s.split(c)` for a one-character separator. */
  function Split(s: string, c: char): (r: seq<string>)
    ensures |r| >= 1
  {
    if |s| == 0 then [""]
    else if s[0] == c then [""] + Split(s[1..], c)
    else
      var rest := Split(s[1..], c);
      [[s[0]] + rest[0]] + rest[1..]
  }

  lemma {:induction false} SplitPlain(p: string, c: char)
    requires c !in p
    ensures Split(p, c) == [p]
  {
    if |p| > 0 {
      SplitPlain(p[1..], c);
      assert [p[0]] + p[1..] == p;
    }
  }

  lemma {:induction false} SplitAcross(p: string, c: char, rest: string)
    requires c !in p
    ensures Split(p + [c] + rest, c) == [p] + Split(rest, c)
  {
    if |p| == 0 {
      assert p + [c] + rest == [c] + rest;
      assert ([c] + rest)[1..] == rest;
    } else {
      var whole := p + [c] + rest;
      assert whole[0] == p[0];
      assert whole[1..] == p[1..] + [c] + rest;
      SplitAcross(p[1..], c, rest);
      assert [p[0]] + p[1..] == p;
    }
  }

  /**
   * Splitting a non-empty join of separator-free parts gives the parts back,
   * so an actor id list joined with ',' can be recovered.
   */
  lemma {:induction false} SplitJoin(parts: seq<string>, c: char)
    requires |parts| >= 1
    requires forall i :: 0 <= i < |parts| ==> c !in parts[i]
    ensures Split(Join(parts, [c]), c) == parts
  {
    if |parts| == 1 {
      SplitPlain(parts[0], c);
    } else {
      SplitJoin(parts[1..], c);
      SplitAcross(parts[0], c, Join(parts[1..], [c]));
      assert [parts[0]] + parts[1..] == parts;
    }
  }
}
