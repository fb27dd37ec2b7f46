/**
 * The scan step (`analyzeBarcode` with `addResultItem`, and the `detect`
 * tick that feeds it). The state is the last accepted payload together with
 * the record store, abstracted as an append-only sequence: the object store
 * has an auto-increment key and records carry no key, so every `put` adds a
 * new record.
 *
 * As written, an accepted payload is stored twice: `addResultItem` writes
 * one record and `analyzeBarcode` then writes another with the same
 * identifier. The two timestamps are taken as opaque inputs.
 */
module Scanner {
  import opened Payload
  import opened Items

  datatype ScanState = ScanState(lastText: string, store: seq<Item>)

  /** What the user observes for one payload. */
  datatype Effect =
    | Silent             // nothing detected, or the same payload as last time
    | InvalidAlert       // the "invalid barcode" alert
    | Accepted(id: string) // list entry, beep and vibration; records written

  datatype StepResult = StepResult(state: ScanState, effect: Effect)

  /**
   * `analyzeBarcode(code)`; `shownAt` is the timestamp `addResultItem`
   * stores, `savedAt` the one `analyzeBarcode` stores itself.
   */
  function AnalyzeBarcode(s: ScanState, code: string, shownAt: string, savedAt: string): (r: StepResult)
    ensures code == s.lastText ==> r == StepResult(s, Silent)
    ensures code != s.lastText && !ValidPayload(code) ==> r == StepResult(s, InvalidAlert)
    ensures code != s.lastText && ValidPayload(code) ==>
              && r.effect == Accepted(code[1..IdLength + 1])
              && r.state.lastText == code
              && |r.state.store| == |s.store| + 2
              && r.state.store[..|s.store|] == s.store
              && r.state.store[|s.store|] == Item(code[1..IdLength + 1], shownAt)
              && r.state.store[|s.store| + 1] == Item(code[1..IdLength + 1], savedAt)
    ensures AllWellFormed(s.store) ==> AllWellFormed(r.state.store)
  {
    if code == s.lastText then
      StepResult(s, Silent)
    else
      match MatchId(code)
      case None => StepResult(s, InvalidAlert)
      case Some(id) =>
        var shown := s.store + [Item(id, shownAt)];
        StepResult(ScanState(code, shown + [Item(id, savedAt)]), Accepted(id))
  }

  /**
   * One `detect` tick: nothing happens without a platform decoder; otherwise
   * the first code the decoder reports, if any, is analysed.
   */
  function Detect(s: ScanState, supported: bool, codes: seq<string>, shownAt: string, savedAt: string): (r: StepResult)
    ensures !supported || codes == [] || codes[0] == s.lastText ==> r == StepResult(s, Silent)
    ensures r.effect == InvalidAlert <==>
              supported && |codes| > 0 && codes[0] != s.lastText && !ValidPayload(codes[0])
    ensures r.effect.Accepted? <==>
              supported && |codes| > 0 && codes[0] != s.lastText && ValidPayload(codes[0])
    ensures r.effect.Accepted? ==>
              && r.effect.id == codes[0][1..IdLength + 1]
              && r.state.lastText == codes[0]
              && |r.state.store| == |s.store| + 2
              && r.state.store[..|s.store|] == s.store
    ensures !r.effect.Accepted? ==> r.state == s
  {
    if supported && |codes| > 0 then AnalyzeBarcode(s, codes[0], shownAt, savedAt)
    else StepResult(s, Silent)
  }

  /** Only the first code the decoder reports in a frame is looked at. */
  lemma DetectFirstOnly(s: ScanState, c: string, rest: seq<string>, shownAt: string, savedAt: string)
    ensures Detect(s, true, [c] + rest, shownAt, savedAt) == Detect(s, true, [c], shownAt, savedAt)
  {
  }

  /** One decoded payload with the two timestamps its acceptance would record. */
  datatype Decoded = Decoded(code: string, shownAt: string, savedAt: string)

  /** Feeds a series of decoded payloads through `AnalyzeBarcode`, collecting the effects. */
  function Run(s: ScanState, inputs: seq<Decoded>): (ScanState, seq<Effect>)
    decreases |inputs|
  {
    if |inputs| == 0 then
      (s, [])
    else
      var step := AnalyzeBarcode(s, inputs[0].code, inputs[0].shownAt, inputs[0].savedAt);
      var (final, effects) := Run(step.state, inputs[1..]);
      (final, [step.effect] + effects)
  }

  /** Unfolds one step of `Run`; a helper for the trace lemmas below. */
  lemma RunStep(s: ScanState, d: Decoded, rest: seq<Decoded>)
    ensures Run(s, [d] + rest) ==
              (Run(AnalyzeBarcode(s, d.code, d.shownAt, d.savedAt).state, rest).0,
               [AnalyzeBarcode(s, d.code, d.shownAt, d.savedAt).effect] + Run(AnalyzeBarcode(s, d.code, d.shownAt, d.savedAt).state, rest).1)
  {
    assert ([d] + rest)[0] == d && ([d] + rest)[1..] == rest;
  }

  /** Number of accepted payloads among the effects. */
  function Acceptances(effects: seq<Effect>): nat {
    if |effects| == 0 then 0
    else (if effects[0].Accepted? then 1 else 0) + Acceptances(effects[1..])
  }

  /**
   * Over any run the store only grows: the old records stay as a prefix and
   * each acceptance adds exactly two records.
   */
  lemma {:induction false} RunAppendOnly(s: ScanState, inputs: seq<Decoded>)
    ensures |Run(s, inputs).1| == |inputs|
    ensures s.store <= Run(s, inputs).0.store
    ensures |Run(s, inputs).0.store| == |s.store| + 2 * Acceptances(Run(s, inputs).1)
    decreases |inputs|
  {
    if |inputs| > 0 {
      var step := AnalyzeBarcode(s, inputs[0].code, inputs[0].shownAt, inputs[0].savedAt);
      RunAppendOnly(step.state, inputs[1..]);
      var effects := Run(step.state, inputs[1..]).1;
      assert ([step.effect] + effects)[1..] == effects;
      assert s.store <= step.state.store;
    }
  }

  /**
   * An accepted payload raises `total` by two and `unique` by one exactly
   * when its identifier was not stored before.
   */
  lemma AcceptedCounts(s: ScanState, code: string, shownAt: string, savedAt: string)
    requires code != s.lastText && ValidPayload(code)
    ensures ItemNumber(AnalyzeBarcode(s, code, shownAt, savedAt).state.store).total == ItemNumber(s.store).total + 2
    ensures ItemNumber(AnalyzeBarcode(s, code, shownAt, savedAt).state.store).unique ==
              ItemNumber(s.store).unique + (if code[1..IdLength + 1] in Ids(s.store) then 0 else 1)
  {
    var id := code[1..IdLength + 1];
    var shown := s.store + [Item(id, shownAt)];
    var r := AnalyzeBarcode(s, code, shownAt, savedAt).state.store;
    assert r == shown + [Item(id, savedAt)];
    if id in Ids(s.store) {
      AppendKnownId(s.store, Item(id, shownAt));
    } else {
      AppendNewId(s.store, Item(id, shownAt));
    }
    IdsAppend(s.store, Item(id, shownAt));
    AppendKnownId(shown, Item(id, savedAt));
  }

  /** The same payload read on consecutive ticks is accepted at most once. */
  lemma RepeatIsSilent(s: ScanState, code: string, t1: string, t2: string, t3: string, t4: string)
    requires ValidPayload(code)
    ensures AnalyzeBarcode(AnalyzeBarcode(s, code, t1, t2).state, code, t3, t4).effect == Silent
    ensures AnalyzeBarcode(AnalyzeBarcode(s, code, t1, t2).state, code, t3, t4).state ==
              AnalyzeBarcode(s, code, t1, t2).state
  {
  }

  /**
   * An invalid payload leaves the state as it was, so the same payload on a
   * later tick is rejected and alerted again.
   */
  lemma InvalidAlertsAgain(s: ScanState, code: string, t1: string, t2: string, t3: string, t4: string)
    requires !ValidPayload(code) && code != s.lastText
    ensures AnalyzeBarcode(s, code, t1, t2) == StepResult(s, InvalidAlert)
    ensures AnalyzeBarcode(AnalyzeBarcode(s, code, t1, t2).state, code, t3, t4).effect == InvalidAlert
  {
  }

  /** Running two series of reads one after the other is running their concatenation. */
  lemma {:induction false} RunConcat(s: ScanState, a: seq<Decoded>, b: seq<Decoded>)
    ensures Run(s, a + b) == (Run(Run(s, a).0, b).0, Run(s, a).1 + Run(Run(s, a).0, b).1)
    decreases |a|
  {
    if |a| == 0 {
      assert a + b == b;
      assert Run(s, a) == (s, []);
      assert [] + Run(s, b).1 == Run(s, b).1;
    } else {
      var step := AnalyzeBarcode(s, a[0].code, a[0].shownAt, a[0].savedAt);
      assert (a + b)[0] == a[0] && (a + b)[1..] == a[1..] + b;
      RunConcat(step.state, a[1..], b);
      var mid := Run(step.state, a[1..]);
      assert [step.effect] + (mid.1 + Run(mid.0, b).1) == ([step.effect] + mid.1) + Run(mid.0, b).1;
    }
  }

  /** A fresh valid payload read three times in a row is accepted once, then ignored twice. */
  lemma ThreeReadsOfX(s: ScanState, x: string, inputs: seq<Decoded>)
    requires ValidPayload(x) && s.lastText != x
    requires |inputs| == 3 && inputs[0].code == x && inputs[1].code == x && inputs[2].code == x
    ensures Run(s, inputs).1 == [Accepted(x[1..7]), Silent, Silent]
    ensures Run(s, inputs).0.lastText == x
    ensures |Run(s, inputs).0.store| == |s.store| + 2
  {
    var s1 := AnalyzeBarcode(s, x, inputs[0].shownAt, inputs[0].savedAt).state;
    assert s1.lastText == x;
    assert inputs == [inputs[0]] + ([inputs[1]] + ([inputs[2]] + []));
    RunStep(s1, inputs[2], []);
    RunStep(s1, inputs[1], [inputs[2]] + []);
    RunStep(s, inputs[0], [inputs[1]] + ([inputs[2]] + []));
  }

  /** After X was accepted, reading Y then X accepts both. */
  lemma YThenX(s: ScanState, x: string, y: string, inputs: seq<Decoded>)
    requires ValidPayload(x) && ValidPayload(y) && x != y && s.lastText == x
    requires |inputs| == 2 && inputs[0].code == y && inputs[1].code == x
    ensures Run(s, inputs).1 == [Accepted(y[1..7]), Accepted(x[1..7])]
    ensures Run(s, inputs).0.lastText == x
    ensures |Run(s, inputs).0.store| == |s.store| + 4
  {
    var s1 := AnalyzeBarcode(s, y, inputs[0].shownAt, inputs[0].savedAt).state;
    assert s1.lastText == y;
    assert inputs == [inputs[0]] + ([inputs[1]] + []);
    RunStep(s1, inputs[1], []);
    RunStep(s, inputs[0], [inputs[1]] + []);
  }

  /**
   * For distinct valid payloads X and Y, the reads X, X, X, Y, X are
   * accepted at positions 1, 4 and 5; with the double write that is six
   * new records.
   */
  lemma DedupTrace(s: ScanState, x: string, y: string, inputs: seq<Decoded>)
    requires ValidPayload(x) && ValidPayload(y) && x != y && s.lastText != x
    requires |inputs| == 5
    requires inputs[0].code == x && inputs[1].code == x && inputs[2].code == x
    requires inputs[3].code == y && inputs[4].code == x
    ensures Run(s, inputs).1 == [Accepted(x[1..7]), Silent, Silent, Accepted(y[1..7]), Accepted(x[1..7])]
    ensures |Run(s, inputs).0.store| == |s.store| + 6
    ensures Run(s, inputs).0.lastText == x
  {
    assert inputs == inputs[..3] + inputs[3..];
    RunConcat(s, inputs[..3], inputs[3..]);
    ThreeReadsOfX(s, x, inputs[..3]);
    YThenX(Run(s, inputs[..3]).0, x, y, inputs[3..]);
  }
}
