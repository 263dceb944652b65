/**
  The moderation verdict of moderation.js: empty text is allowed, a fixed
  pattern of critical words blocks without asking the classifier, and
  otherwise the classifier's one-word reply decides, failing open.

  The classifier is a network call; here its outcome is an input: the reply
  text it returned (possibly absent), or a failure.
 */
module Moderation {
  import opened Types
  import opened JsText

  datatype Verdict = ALLOWED | BORDERLINE | BLOCKED

  /** What the classifier call produced: `response.text` (which may be
      undefined), or an exception. */
  datatype ClassifierOutcome = Replied(text: Option<string>) | Failed

  // ---------------------------------------------------------------------
  // The critical pattern
  //   /child.*(porn|sex|abuse)|terroris(m|t)|trafficking|bomb.*making|mass.*killing/i

  /** The lower-case word `w` stands at position `i` of `s`, letters
      compared as the `i` flag compares them. */
  predicate WordAt(s: string, i: nat, w: string) {
    i + |w| <= |s| && forall k :: 0 <= k < |w| ==> FoldAscii(s[i + k]) == w[k]
  }

  /** `.*` can span `s[a..b]`: no line terminator lies in it. */
  predicate NoLineBreak(s: string, a: nat, b: nat)
    requires a <= b <= |s|
  {
    forall k :: a <= k < b ==> !IsLineTerminator(s[k])
  }

  /** Reference meaning of an unanchored one-word alternative. */
  ghost predicate Occurs(s: string, w: string) {
    exists i: nat :: WordAt(s, i, w)
  }

  /** Reference meaning of `first.*second`: `second` starts at or after the
      end of `first`, on the same line. */
  ghost predicate OccursThenOnSameLine(s: string, first: string, second: string) {
    exists i: nat, j: nat ::
      i + |first| <= j && WordAt(s, i, first) && WordAt(s, j, second) && NoLineBreak(s, i + |first|, j)
  }

  /** Where `criticalRegex.test(s)` is true, alternative by alternative. */
  ghost predicate MatchesCriticalPattern(s: string) {
    || OccursThenOnSameLine(s, "child", "porn")
    || OccursThenOnSameLine(s, "child", "sex")
    || OccursThenOnSameLine(s, "child", "abuse")
    || Occurs(s, "terrorism")
    || Occurs(s, "terrorist")
    || Occurs(s, "trafficking")
    || OccursThenOnSameLine(s, "bomb", "making")
    || OccursThenOnSameLine(s, "mass", "killing")
  }

  /** Scan for `w` from position `i` on. */
  function OccursFrom(s: string, w: string, i: nat): bool
    requires i <= |s|
    decreases |s| - i
  {
    WordAt(s, i, w) || (i < |s| && OccursFrom(s, w, i + 1))
  }

  lemma {:induction false} OccursFromIff(s: string, w: string, i: nat)
    requires i <= |s|
    ensures OccursFrom(s, w, i) <==> exists p: nat :: i <= p && WordAt(s, p, w)
    decreases |s| - i
  {
    if i < |s| {
      OccursFromIff(s, w, i + 1);
      if exists p: nat :: i <= p && WordAt(s, p, w) {
        var p: nat :| i <= p && WordAt(s, p, w);
        assert p == i || (i + 1 <= p && WordAt(s, p, w));
      }
    } else {
      if exists p: nat :: i <= p && WordAt(s, p, w) {
        var p: nat :| i <= p && WordAt(s, p, w);
        assert p == i;
      }
    }
  }

  /** Some occurrence of `first` ends at or before `p` on the line that
      `p` is on: the scanner's state at position `p`. */
  function Armed(s: string, first: string, p: nat): bool
    requires p <= |s|
    decreases p
  {
    || (p >= |first| && WordAt(s, p - |first|, first))
    || (p > 0 && !IsLineTerminator(s[p - 1]) && Armed(s, first, p - 1))
  }

  lemma {:induction false} ArmedIff(s: string, first: string, p: nat)
    requires p <= |s|
    ensures Armed(s, first, p) <==>
      exists i: nat :: i + |first| <= p && WordAt(s, i, first) && NoLineBreak(s, i + |first|, p)
    decreases p
  {
    if p > 0 {
      ArmedIff(s, first, p - 1);
    }
    if Armed(s, first, p) {
      if p >= |first| && WordAt(s, p - |first|, first) {
        var i: nat := p - |first|;
        assert NoLineBreak(s, i + |first|, p);
      } else {
        var i: nat :| i + |first| <= p - 1 && WordAt(s, i, first) && NoLineBreak(s, i + |first|, p - 1);
        assert NoLineBreak(s, i + |first|, p);
      }
    }
    if exists i: nat :: i + |first| <= p && WordAt(s, i, first) && NoLineBreak(s, i + |first|, p) {
      var i: nat :| i + |first| <= p && WordAt(s, i, first) && NoLineBreak(s, i + |first|, p);
      if i + |first| < p {
        assert !IsLineTerminator(s[p - 1]);
        assert NoLineBreak(s, i + |first|, p - 1);
      }
    }
  }

  /** Scan for `first.*second` from position `p` on. */
  function SameLineFrom(s: string, first: string, second: string, p: nat): bool
    requires p <= |s|
    decreases |s| - p
  {
    (Armed(s, first, p) && WordAt(s, p, second)) || (p < |s| && SameLineFrom(s, first, second, p + 1))
  }

  lemma {:induction false} SameLineFromIff(s: string, first: string, second: string, p: nat)
    requires p <= |s|
    ensures SameLineFrom(s, first, second, p) <==>
      exists j: nat :: p <= j <= |s| && Armed(s, first, j) && WordAt(s, j, second)
    decreases |s| - p
  {
    if p < |s| {
      SameLineFromIff(s, first, second, p + 1);
    }
    if exists j: nat :: p <= j <= |s| && Armed(s, first, j) && WordAt(s, j, second) {
      var j: nat :| p <= j <= |s| && Armed(s, first, j) && WordAt(s, j, second);
      assert j == p || p + 1 <= j;
    }
  }

  lemma SameLineCorrect(s: string, first: string, second: string)
    ensures SameLineFrom(s, first, second, 0) <==> OccursThenOnSameLine(s, first, second)
  {
    SameLineFromIff(s, first, second, 0);
    if SameLineFrom(s, first, second, 0) {
      var j: nat :| j <= |s| && Armed(s, first, j) && WordAt(s, j, second);
      ArmedIff(s, first, j);
      var i: nat :| i + |first| <= j && WordAt(s, i, first) && NoLineBreak(s, i + |first|, j);
      assert WordAt(s, i, first) && WordAt(s, j, second);
    }
    if OccursThenOnSameLine(s, first, second) {
      var i: nat, j: nat :|
        i + |first| <= j && WordAt(s, i, first) && WordAt(s, j, second) && NoLineBreak(s, i + |first|, j);
      ArmedIff(s, first, j);
      assert Armed(s, first, j);
    }
  }

  lemma OccursCorrect(s: string, w: string)
    ensures OccursFrom(s, w, 0) <==> Occurs(s, w)
  {
    OccursFromIff(s, w, 0);
  }

  /** The executable pattern test. */
  function CriticalPattern(s: string): bool {
    || SameLineFrom(s, "child", "porn", 0)
    || SameLineFrom(s, "child", "sex", 0)
    || SameLineFrom(s, "child", "abuse", 0)
    || OccursFrom(s, "terrorism", 0)
    || OccursFrom(s, "terrorist", 0)
    || OccursFrom(s, "trafficking", 0)
    || SameLineFrom(s, "bomb", "making", 0)
    || SameLineFrom(s, "mass", "killing", 0)
  }

  /** The scanner decides exactly the language of the regular expression. */
  lemma CriticalPatternCorrect(s: string)
    ensures CriticalPattern(s) <==> MatchesCriticalPattern(s)
  {
    SameLineCorrect(s, "child", "porn");
    SameLineCorrect(s, "child", "sex");
    SameLineCorrect(s, "child", "abuse");
    OccursCorrect(s, "terrorism");
    OccursCorrect(s, "terrorist");
    OccursCorrect(s, "trafficking");
    SameLineCorrect(s, "bomb", "making");
    SameLineCorrect(s, "mass", "killing");
  }

  // ---------------------------------------------------------------------
  // The verdict

  /** The classifier's answer mapped to a verdict: the reply, trimmed and
      upper-cased, must be exactly BLOCKED or BORDERLINE; anything else,
      a missing reply and a failed call all allow. */
  function ClassifierVerdict(outcome: ClassifierOutcome): Verdict {
    match outcome
    case Failed => ALLOWED
    case Replied(None) => ALLOWED
    case Replied(Some(t)) =>
      var r := ToUpperCase(Trim(t));
      if r == "BLOCKED" then BLOCKED
      else if r == "BORDERLINE" then BORDERLINE
      else ALLOWED
  }

  /** Which replies give which verdict, stated without upper-casing. */
  lemma ClassifierReply(t: string)
    ensures ClassifierVerdict(Replied(Some(t))) == BLOCKED <==> SpellsIgnoringCase(Trim(t), "BLOCKED")
    ensures ClassifierVerdict(Replied(Some(t))) == BORDERLINE <==> SpellsIgnoringCase(Trim(t), "BORDERLINE")
  {
    var r := ToUpperCase(Trim(t));
    assert ClassifierVerdict(Replied(Some(t))) == if r == "BLOCKED" then BLOCKED else if r == "BORDERLINE" then BORDERLINE else ALLOWED;
    assert r == "BLOCKED" <==> SpellsIgnoringCase(Trim(t), "BLOCKED") by {
      UpperEqualsWordIff(Trim(t), "BLOCKED");
    }
    assert r == "BORDERLINE" <==> SpellsIgnoringCase(Trim(t), "BORDERLINE") by {
      UpperEqualsWordIff(Trim(t), "BORDERLINE");
    }
  }

  /** `moderate(text)` with the classifier's outcome given. A blank text
      and a pattern match never reach the classifier: the verdict is then
      the same whatever `outcome` is. */
  function Moderate(text: string, outcome: ClassifierOutcome): (v: Verdict)
    ensures AllTrimmable(text) ==> v == ALLOWED
    ensures !AllTrimmable(text) && MatchesCriticalPattern(text) ==> v == BLOCKED
    ensures !AllTrimmable(text) && !MatchesCriticalPattern(text) ==> v == ClassifierVerdict(outcome)
    ensures outcome.Failed? ==> (v == BLOCKED <==> !AllTrimmable(text) && MatchesCriticalPattern(text))
    ensures v == BORDERLINE ==> !MatchesCriticalPattern(text)
  {
    CriticalPatternCorrect(text);
    if Trim(text) == [] then ALLOWED
    else if CriticalPattern(text) then BLOCKED
    else ClassifierVerdict(outcome)
  }

  /** A classifier that is down never blocks a text that does not match
      the pattern (fail-open), and never marks anything borderline. */
  lemma FailOpen(text: string)
    ensures Moderate(text, Failed) != BORDERLINE
    ensures !MatchesCriticalPattern(text) ==> Moderate(text, Failed) == ALLOWED
  {
  }

  /** The pattern matches across a hyphen, whatever the classifier says. */
  lemma PatternSpansHyphen()
    ensures Moderate("BOMB-making", Replied(Some("ALLOWED"))) == BLOCKED
  {
    var s := "BOMB-making";
    assert WordAt(s, 0, "bomb") by {
      assert s[0] == 'B' && s[1] == 'O' && s[2] == 'M' && s[3] == 'B';
    }
    assert WordAt(s, 5, "making") by {
      assert s[5..11] == "making";
    }
    assert NoLineBreak(s, 4, 5) by {
      assert s[4] == '-';
    }
    assert OccursThenOnSameLine(s, "bomb", "making");
    assert !IsTrimmable(s[0]);
  }
}
