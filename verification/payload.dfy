/**
 * The payload grammar of the scanner: a Codabar payload is one start
 * character from A-D, six ASCII digits and one stop character from A-D,
 * and the six digits form the identifier (`matchStr` in main.ts).
 *
 * The regular expression is modelled as an anchored sequence of
 * single-character atoms, each tagged with whether it lies inside the
 * capture group; `MatchAnchored` is the matcher and the lemmas relate it
 * to the closed-form grammar `ValidPayload`.
 */
module Payload {
  import opened Wrappers

  /** `\d` without the `u` flag: the ASCII digits only. */
  predicate IsDigit(c: char) {
    '0' <= c <= '9'
  }

  /** `[A-D]`: the Codabar start/stop alphabet, upper case only. */
  predicate IsStartStop(c: char) {
    'A' <= c <= 'D'
  }

  predicate AllDigits(s: string) {
    forall i :: 0 <= i < |s| ==> IsDigit(s[i])
  }

  /** Number of digits in an identifier. */
  const IdLength: nat := 6

  /** An identifier: exactly six ASCII digits. */
  predicate IsIdentifier(s: string) {
    |s| == IdLength && AllDigits(s)
  }

  /** The closed-form grammar `^[A-D]\d{6}[A-D]$`. */
  predicate ValidPayload(code: string) {
    && |code| == IdLength + 2
    && IsStartStop(code[0])
    && IsStartStop(code[IdLength + 1])
    && forall i :: 1 <= i <= IdLength ==> IsDigit(code[i])
  }

  /** The two character classes used by the pattern. */
  datatype CharClass = StartStop | Digit

  predicate InClass(k: CharClass, c: char) {
    match k
    case StartStop => IsStartStop(c)
    case Digit => IsDigit(c)
  }

  /** One single-character position of an anchored pattern. */
  datatype Atom = Atom(cls: CharClass, captured: bool)

  const Frame: Atom := Atom(StartStop, false)
  const IdDigit: Atom := Atom(Digit, true)

  /** `(\d{6})`: the capture group. */
  const Group: seq<Atom> := [IdDigit, IdDigit, IdDigit, IdDigit, IdDigit, IdDigit]

  /** `^[A-D](\d{6})[A-D]$` */
  const Pattern: seq<Atom> := [Frame] + Group + [Frame]

  /** Every position of `s` lies in the class of the atom at the same position. */
  predicate ClassesMatch(p: seq<Atom>, s: string)
    requires |p| == |s|
  {
    forall i :: 0 <= i < |p| ==> InClass(p[i].cls, s[i])
  }

  /**
   * Matches `s` against the anchored pattern `p` (`^` before and `$` after,
   * no multiline flag) and yields the characters taken by captured atoms.
   */
  function MatchAnchored(p: seq<Atom>, s: string): (r: Option<string>)
    ensures r.Some? <==> |s| == |p| && ClassesMatch(p, s)
    ensures r.Some? ==> |r.value| <= |s|
    decreases |p|
  {
    if |p| == 0 then
      if |s| == 0 then Some("") else None
    else if |s| == 0 || !InClass(p[0].cls, s[0]) then
      None
    else
      match MatchAnchored(p[1..], s[1..])
      case None => None
      case Some(g) => Some(if p[0].captured then [s[0]] + g else g)
  }

  /** Sequential composition of two match results. */
  function Join(a: Option<string>, b: Option<string>): Option<string> {
    if a.Some? && b.Some? then Some(a.value + b.value) else None
  }

  /** Matching a concatenated pattern splits into matching each part on its own slice. */
  lemma {:induction false} MatchConcat(p1: seq<Atom>, p2: seq<Atom>, s: string)
    requires |p1| <= |s|
    ensures MatchAnchored(p1 + p2, s) == Join(MatchAnchored(p1, s[..|p1|]), MatchAnchored(p2, s[|p1|..]))
    decreases |p1|
  {
    if |p1| == 0 {
      assert p1 + p2 == p2;
      assert s[|p1|..] == s;
      assert s[..|p1|] == "";
      var b := MatchAnchored(p2, s);
      if b.Some? {
        assert "" + b.value == b.value;
      }
    } else {
      assert (p1 + p2)[0] == p1[0];
      assert (p1 + p2)[1..] == p1[1..] + p2;
      MatchConcat(p1[1..], p2, s[1..]);
      assert s[1..][..|p1| - 1] == s[..|p1|][1..];
      assert s[1..][|p1| - 1..] == s[|p1|..];
      var a := MatchAnchored(p1[1..], s[..|p1|][1..]);
      var b := MatchAnchored(p2, s[|p1|..]);
      if a.Some? && b.Some? {
        assert [s[0]] + (a.value + b.value) == ([s[0]] + a.value) + b.value;
      }
    }
  }

  /** A pattern made only of captured atoms captures the whole input. */
  lemma {:induction false} MatchAllCaptured(p: seq<Atom>, s: string)
    requires forall i :: 0 <= i < |p| ==> p[i].captured
    requires MatchAnchored(p, s).Some?
    ensures MatchAnchored(p, s) == Some(s)
    decreases |p|
  {
    if |p| > 0 {
      MatchAllCaptured(p[1..], s[1..]);
      assert [s[0]] + s[1..] == s;
    }
  }

  /** A pattern without captured atoms captures nothing. */
  lemma {:induction false} MatchNoneCaptured(p: seq<Atom>, s: string)
    requires forall i :: 0 <= i < |p| ==> !p[i].captured
    requires MatchAnchored(p, s).Some?
    ensures MatchAnchored(p, s) == Some("")
    decreases |p|
  {
    if |p| > 0 {
      MatchNoneCaptured(p[1..], s[1..]);
    }
  }

  /** On a match of `Pattern`, the capture group holds exactly the six middle characters. */
  lemma PatternCapture(code: string)
    requires MatchAnchored(Pattern, code).Some?
    ensures MatchAnchored(Pattern, code) == Some(code[1..IdLength + 1])
  {
    var rest := code[1..];
    assert |code| == |Pattern| == 8;
    assert [Frame] + (Group + [Frame]) == Pattern;
    MatchConcat([Frame], Group + [Frame], code);
    MatchConcat(Group, [Frame], rest);
    var head := MatchAnchored([Frame], code[..1]);
    var mid := MatchAnchored(Group, rest[..IdLength]);
    var tail := MatchAnchored([Frame], rest[IdLength..]);
    assert MatchAnchored(Group + [Frame], rest) == Join(mid, tail);
    assert MatchAnchored(Pattern, code) == Join(head, Join(mid, tail));
    MatchAllCaptured(Group, rest[..IdLength]);
    MatchNoneCaptured([Frame], code[..1]);
    MatchNoneCaptured([Frame], rest[IdLength..]);
    assert rest[..IdLength] == code[1..IdLength + 1];
    assert "" + (code[1..IdLength + 1] + "") == code[1..IdLength + 1];
  }

  /**
   * `code.match(matchStr)` followed by `match[1]`: the identifier carried by
   * a valid payload, or `None` for a payload the grammar rejects.
   */
  function MatchId(code: string): (r: Option<string>)
    ensures r.Some? <==> ValidPayload(code)
    ensures r.Some? ==> r.value == code[1..IdLength + 1] && IsIdentifier(r.value)
  {
    var m := MatchAnchored(Pattern, code);
    if m.Some? then
      PatternCapture(code);
      assert forall i :: 1 <= i <= IdLength ==> Pattern[i] == IdDigit;
      m
    else
      assert |code| == |Pattern| ==> Pattern[0] == Frame && Pattern[7] == Frame;
      assert |code| == |Pattern| && ValidPayload(code) ==> ClassesMatch(Pattern, code) by {
        if |code| == |Pattern| && ValidPayload(code) {
          forall i | 0 <= i < |Pattern| ensures InClass(Pattern[i].cls, code[i]) {
            if 1 <= i <= IdLength { assert Pattern[i] == IdDigit; }
          }
        }
      }
      m
  }
}
