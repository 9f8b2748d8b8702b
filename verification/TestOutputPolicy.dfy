/**
 Forbidden messages in test output: search of a whole log, and the inspector that sees the log
 in chunks and keeps only a short tail. Text is a sequence of UTF-16 code units; the rules are
 literal and ignore the case of ASCII letters only.
 */
module TestOutputPolicy {
  import opened Outcomes

  type Text = seq<nat>

  const RETAINED_TAIL: nat := 256

  /** The literal patterns, in rule order. */
  const RULES: seq<string> := [
    "not wrapped in act",
    "current testing environment is not configured to support act",
    "Headless UI has polyfilled `Element.prototype.getAnimations`",
    "[Unhandled error]",
    "[console.error]",
    "[Storybook unexpected stderr]",
    "panic(main thread):",
    "oh no: Bun has crashed"]

  function Fold(unit: nat): nat {
    if 97 <= unit <= 122 then unit - 32 else unit
  }

  predicate MatchesAt(pattern: string, text: Text, i: nat)
    requires i + |pattern| <= |text|
  {
    forall j :: 0 <= j < |pattern| ==> Fold(text[i + j]) == Fold(pattern[j] as int)
  }

  predicate Matches(pattern: string, text: Text) {
    exists i :: 0 <= i <= |text| - |pattern| && MatchesAt(pattern, text, i)
  }

  /** The same unit, or the two cases of one ASCII letter. */
  predicate SameLetter(a: nat, b: nat) {
    a == b || (65 <= a <= 90 && b == a + 32) || (65 <= b <= 90 && a == b + 32)
  }

  lemma FoldIdentifiesLetters(a: nat, b: nat)
    ensures Fold(a) == Fold(b) <==> SameLetter(a, b)
  {
  }

  /** The pattern stands at this place, letter by letter. */
  predicate Occurs(pattern: string, text: Text, i: nat) {
    && i + |pattern| <= |text|
    && forall j :: 0 <= j < |pattern| ==> SameLetter(text[i + j], pattern[j] as int)
  }

  ghost predicate Contains(text: Text, rule: nat)
    requires rule < |RULES|
  {
    exists i: nat :: Occurs(RULES[rule], text, i)
  }

  /** A match is an occurrence up to the case of ASCII letters, and nothing else. */
  lemma MatchesAreOccurrences(text: Text, rule: nat)
    requires rule < |RULES|
    ensures Matches(RULES[rule], text) <==> Contains(text, rule)
  {
    var pattern := RULES[rule];
    forall i: nat | i + |pattern| <= |text|
      ensures MatchesAt(pattern, text, i) <==> Occurs(pattern, text, i)
    {
      forall j | 0 <= j < |pattern|
        ensures Fold(text[i + j]) == Fold(pattern[j] as int) <==> SameLetter(text[i + j], pattern[j] as int)
      {
        FoldIdentifiesLetters(text[i + j], pattern[j] as int);
      }
    }
    if Matches(pattern, text) {
      var i :| 0 <= i <= |text| - |pattern| && MatchesAt(pattern, text, i);
      assert Occurs(pattern, text, i);
    }
    if Contains(text, rule) {
      var i: nat :| Occurs(pattern, text, i);
      assert MatchesAt(pattern, text, i);
    }
  }

  ghost predicate Clean(text: Text) {
    forall rule :: 0 <= rule < |RULES| ==> !Contains(text, rule)
  }

  ghost predicate FirstForbidden(text: Text, rule: nat) {
    && rule < |RULES| && Contains(text, rule)
    && forall earlier :: 0 <= earlier < rule ==> !Contains(text, earlier)
  }

  function FindAmong(text: Text, rules: seq<string>): Option<nat> {
    if rules == [] then None
    else
      var earlier := FindAmong(text, rules[..|rules| - 1]);
      if earlier.Some? then earlier
      else if Matches(rules[|rules| - 1], text) then Some(|rules| - 1)
      else None
  }

  /** Something is found exactly if some rule matches, and no rule before it does. */
  lemma {:induction false} FindAmongIsFirst(text: Text, rules: seq<string>)
    ensures var r := FindAmong(text, rules);
      && (r.None? <==> forall k :: 0 <= k < |rules| ==> !Matches(rules[k], text))
      && (r.Some? ==> r.value < |rules| && Matches(rules[r.value], text))
      && (r.Some? ==> forall k :: 0 <= k < r.value ==> !Matches(rules[k], text))
  {
    if rules != [] {
      var front := rules[..|rules| - 1];
      FindAmongIsFirst(text, front);
      assert forall k :: 0 <= k < |front| ==> front[k] == rules[k];
    }
  }

  /** The first rule that matches anywhere in the text. */
  function Find(text: Text): (r: Option<nat>)
    ensures r.None? <==> forall k :: 0 <= k < |RULES| ==> !Matches(RULES[k], text)
    ensures r.Some? ==> r.value < |RULES| && Matches(RULES[r.value], text)
    ensures r.Some? ==> forall k :: 0 <= k < r.value ==> !Matches(RULES[k], text)
  {
    FindAmongIsFirst(text, RULES);
    FindAmong(text, RULES)
  }

  /** What the search finds, in terms of occurrences. */
  lemma FindSpelledOut(text: Text)
    ensures Find(text).None? <==> Clean(text)
    ensures forall rule: nat :: Find(text) == Some(rule) <==> FirstForbidden(text, rule)
  {
    forall rule: nat | rule < |RULES| ensures Matches(RULES[rule], text) <==> Contains(text, rule) {
      MatchesAreOccurrences(text, rule);
    }
  }

  lemma FoundIsOccurrence(text: Text)
    ensures Find(text).Some? <==> exists rule: nat, i: nat :: rule < |RULES| && Occurs(RULES[rule], text, i)
  {
    FindSpelledOut(text);
    if Find(text).Some? {
      var rule := Find(text).value;
      assert Contains(text, rule);
      var i: nat :| Occurs(RULES[rule], text, i);
    }
    if exists rule: nat, i: nat :: rule < |RULES| && Occurs(RULES[rule], text, i) {
      var rule: nat, i: nat :| rule < |RULES| && Occurs(RULES[rule], text, i);
      assert Contains(text, rule);
    }
  }

  function Tail(text: Text): Text {
    if |text| <= RETAINED_TAIL then text else text[|text| - RETAINED_TAIL..]
  }

  lemma MatchMoves(pattern: string, text: Text, i: nat, other: Text, k: nat)
    requires i + |pattern| <= |text| && k + |pattern| <= |other|
    requires text[i..i + |pattern|] == other[k..k + |pattern|]
    ensures MatchesAt(pattern, text, i) <==> MatchesAt(pattern, other, k)
  {
    var a, b := text[i..i + |pattern|], other[k..k + |pattern|];
    assert MatchesAt(pattern, text, i) <==> MatchesAt(pattern, a, 0);
    assert MatchesAt(pattern, other, k) <==> MatchesAt(pattern, b, 0);
  }

  /** A match in a text is a match in every text that contains it. */
  lemma MatchSurvives(pattern: string, before: Text, text: Text, after: Text)
    requires Matches(pattern, text)
    ensures Matches(pattern, before + text + after)
  {
    var i :| 0 <= i <= |text| - |pattern| && MatchesAt(pattern, text, i);
    var whole := before + text + after;
    assert whole[|before| + i..|before| + i + |pattern|] == text[i..i + |pattern|];
    MatchMoves(pattern, text, i, whole, |before| + i);
  }

  /** A match of the text so far plus a chunk lies in the retained tail plus that chunk. */
  lemma MatchReachesTail(pattern: string, text: Text, chunk: Text)
    requires |pattern| <= RETAINED_TAIL + 1
    requires !Matches(pattern, text) && Matches(pattern, text + chunk)
    ensures Matches(pattern, Tail(text) + chunk)
  {
    var whole, kept := text + chunk, Tail(text) + chunk;
    var i :| 0 <= i <= |whole| - |pattern| && MatchesAt(pattern, whole, i);
    if i + |pattern| <= |text| {
      assert whole[i..i + |pattern|] == text[i..i + |pattern|];
      MatchMoves(pattern, whole, i, text, i);
    } else {
      var cut := |text| - |Tail(text)|;
      assert whole[i..i + |pattern|] == kept[i - cut..i - cut + |pattern|];
      MatchMoves(pattern, whole, i, kept, i - cut);
    }
  }

  lemma TailSuffices(text: Text, chunk: Text)
    requires Find(text).None?
    ensures Find(Tail(text) + chunk) == Find(text + chunk)
  {
    var cut := text[..|text| - |Tail(text)|];
    assert text + chunk == cut + (Tail(text) + chunk) + [];
    forall k | 0 <= k < |RULES|
      ensures Matches(RULES[k], Tail(text) + chunk) <==> Matches(RULES[k], text + chunk)
    {
      if Matches(RULES[k], text + chunk) {
        MatchReachesTail(RULES[k], text, chunk);
      }
      if Matches(RULES[k], Tail(text) + chunk) {
        MatchSurvives(RULES[k], cut, Tail(text) + chunk, []);
      }
    }
    FindAmongAgrees(Tail(text) + chunk, text + chunk, RULES);
  }

  lemma {:induction false} FindAmongAgrees(a: Text, b: Text, rules: seq<string>)
    requires forall k :: 0 <= k < |rules| ==> (Matches(rules[k], a) <==> Matches(rules[k], b))
    ensures FindAmong(a, rules) == FindAmong(b, rules)
  {
    if rules != [] {
      var front := rules[..|rules| - 1];
      assert forall k :: 0 <= k < |front| ==> front[k] == rules[k];
      FindAmongAgrees(a, b, front);
    }
  }

  // ---------------------------------------------------------------- chunks

  function Concat(chunks: seq<Text>): Text {
    if chunks == [] then [] else Concat(chunks[..|chunks| - 1]) + chunks[|chunks| - 1]
  }

  /** What the whole log up to the first offending chunk says. */
  function Verdict(chunks: seq<Text>): Option<nat> {
    if chunks == [] then None
    else
      var earlier := Verdict(chunks[..|chunks| - 1]);
      if earlier.Some? then earlier else Find(Concat(chunks))
  }

  /** The inspector of one continuous output stream. */
  class TestOutputInspector {
    var tail: Text
    var violation: Option<nat>
    ghost var chunks: seq<Text>

    ghost predicate Valid()
      reads this
    {
      && violation == Verdict(chunks)
      && (violation.None? ==> Find(Concat(chunks)).None? && tail == Tail(Concat(chunks)))
    }

    constructor ()
      ensures Valid() && chunks == [] && violation.None?
    {
      tail, violation, chunks := [], None, [];
      NothingMatchesNothing();
    }

    method Inspect(chunk: Text)
      requires Valid()
      modifies this
      ensures Valid() && chunks == old(chunks) + [chunk]
      ensures violation == Verdict(old(chunks) + [chunk])
    {
      chunks := chunks + [chunk];
      assert chunks[..|chunks| - 1] == old(chunks);
      if violation.Some? || chunk == [] {
        assert chunk == [] ==> Concat(chunks) == Concat(old(chunks));
        return;
      }
      ghost var text := Concat(old(chunks));
      TailSuffices(text, chunk);
      var candidate := tail + chunk;
      violation := Find(candidate);
      TailOfTail(text, chunk);
      tail := Tail(candidate);
    }
  }

  lemma NothingMatchesNothing()
    ensures Find([]).None?
  {
    forall k | 0 <= k < |RULES| ensures !Matches(RULES[k], []) {
      assert |RULES[k]| > 0;
    }
  }

  lemma TailOfTail(text: Text, chunk: Text)
    ensures Tail(Tail(text) + chunk) == Tail(text + chunk)
  {
  }

  /** The inspected stream, however it is cut into chunks. */
  method InspectAll(chunks: seq<Text>) returns (violation: Option<nat>)
    ensures violation.Some? <==>
            exists rule: nat, i: nat :: rule < |RULES| && Occurs(RULES[rule], Concat(chunks), i)
    ensures violation == Verdict(chunks)
  {
    var inspector := new TestOutputInspector();
    for i := 0 to |chunks|
      invariant inspector.Valid() && inspector.chunks == chunks[..i]
    {
      inspector.Inspect(chunks[i]);
      assert chunks[..i + 1] == chunks[..i] + [chunks[i]];
    }
    assert chunks[..|chunks|] == chunks;
    violation := inspector.violation;
    VerdictIsSearch(chunks);
    FoundIsOccurrence(Concat(chunks));
  }

  lemma {:induction false} ConcatSplits(chunks: seq<Text>, k: nat)
    requires k <= |chunks|
    ensures Concat(chunks) == Concat(chunks[..k]) + Concat(chunks[k..])
  {
    if k == |chunks| {
      assert chunks[..k] == chunks;
    } else {
      var n := |chunks| - 1;
      ConcatSplits(chunks[..n], k);
      assert chunks[..n][..k] == chunks[..k];
      assert chunks[k..][..n - k] == chunks[..n][k..];
    }
  }

  lemma FoundStaysFound(text: Text, more: Text)
    requires Find(text).Some?
    ensures Find(text + more).Some?
  {
    MatchSurvives(RULES[Find(text).value], [], text, more);
    assert [] + text + more == text + more;
  }

  /** Whatever a prefix of the chunks holds, the whole holds. */
  lemma FindGrows(chunks: seq<Text>, k: nat)
    requires k <= |chunks| && Find(Concat(chunks[..k])).Some?
    ensures Find(Concat(chunks)).Some?
  {
    ConcatSplits(chunks, k);
    FoundStaysFound(Concat(chunks[..k]), Concat(chunks[k..]));
  }

  /** The chunked verdict is a violation exactly when whole-log search finds one. */
  lemma {:induction false} VerdictIsSearch(chunks: seq<Text>)
    ensures Verdict(chunks).None? <==> Find(Concat(chunks)).None?
  {
    NothingMatchesNothing();
    if chunks != [] {
      var front := chunks[..|chunks| - 1];
      VerdictIsSearch(front);
      if Verdict(front).Some? {
        FindGrows(chunks, |front|);
      }
    }
  }

  lemma {:induction false} VerdictAtEnd(chunks: seq<Text>)
    requires chunks != [] && Find(Concat(chunks[..|chunks| - 1])).None?
    ensures Verdict(chunks) == Find(Concat(chunks))
  {
    VerdictIsSearch(chunks[..|chunks| - 1]);
  }

  /** Later chunks never change a verdict. */
  lemma {:induction false} VerdictStays(chunks: seq<Text>, k: nat)
    requires k <= |chunks| && Verdict(chunks[..k]).Some?
    ensures Verdict(chunks) == Verdict(chunks[..k])
  {
    if k == |chunks| {
      assert chunks[..k] == chunks;
    } else {
      var front := chunks[..|chunks| - 1];
      assert front[..k] == chunks[..k];
      VerdictStays(front, k);
    }
  }

  /**
   The verdict is given at the first chunk up to which the log holds a forbidden message, and
   names the first rule that log matches.
   */
  lemma {:induction false} VerdictIsTheFirst(chunks: seq<Text>, k: nat)
    requires 0 < k <= |chunks|
    requires Find(Concat(chunks[..k])).Some? && Find(Concat(chunks[..k - 1])).None?
    ensures Verdict(chunks) == Find(Concat(chunks[..k]))
  {
    assert chunks[..k][..k - 1] == chunks[..k - 1];
    VerdictAtEnd(chunks[..k]);
    VerdictStays(chunks, k);
  }

  ghost predicate GivenAt(chunks: seq<Text>, k: nat, rule: nat) {
    && 0 < k <= |chunks| && Clean(Concat(chunks[..k - 1])) && FirstForbidden(Concat(chunks[..k]), rule)
  }

  /**
   The verdict in full: a rule is reported exactly if some chunk completes the first forbidden
   message of the log, and the rule is the first one that then occurs.
   */
  lemma {:induction false} VerdictSpelledOut(chunks: seq<Text>, rule: nat)
    ensures Verdict(chunks) == Some(rule) <==> exists k: nat :: GivenAt(chunks, k, rule)
  {
    if Verdict(chunks) == Some(rule) {
      var k := Completing(chunks);
      FindSpelledOut(Concat(chunks[..k - 1]));
      FindSpelledOut(Concat(chunks[..k]));
      VerdictIsTheFirst(chunks, k);
      assert GivenAt(chunks, k, rule);
    }
    if exists k: nat :: GivenAt(chunks, k, rule) {
      var k: nat :| GivenAt(chunks, k, rule);
      FindSpelledOut(Concat(chunks[..k - 1]));
      FindSpelledOut(Concat(chunks[..k]));
      VerdictIsTheFirst(chunks, k);
    }
  }

  /** The first chunk up to which something is found. */
  lemma {:induction false} Completing(chunks: seq<Text>) returns (k: nat)
    requires Verdict(chunks).Some?
    ensures 0 < k <= |chunks|
    ensures Find(Concat(chunks[..k - 1])).None? && Find(Concat(chunks[..k])).Some?
  {
    var front := chunks[..|chunks| - 1];
    if Verdict(front).Some? {
      k := Completing(front);
      assert front[..k] == chunks[..k] && front[..k - 1] == chunks[..k - 1];
    } else {
      k := |chunks|;
      VerdictIsSearch(front);
      assert chunks[..k] == chunks;
    }
  }

  /** That chunk is where the earliest-ending occurrence ends. */
  lemma FirstViolationEndsThere(chunks: seq<Text>, k: nat, rule: nat, i: nat)
    requires 0 < k <= |chunks| && rule < |RULES|
    requires Find(Concat(chunks[..k - 1])).None?
    requires i + |RULES[rule]| <= |Concat(chunks)| && MatchesAt(RULES[rule], Concat(chunks), i)
    ensures i + |RULES[rule]| > |Concat(chunks[..k - 1])|
  {
    var front, pattern := Concat(chunks[..k - 1]), RULES[rule];
    ConcatSplits(chunks, k - 1);
    if i + |pattern| <= |front| {
      assert Concat(chunks)[i..i + |pattern|] == front[i..i + |pattern|];
      MatchMoves(pattern, Concat(chunks), i, front, i);
    }
  }
}
