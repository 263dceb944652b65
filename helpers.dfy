/**
  The generators of utils/helpers.ts. `Math.random()` is an oracle: each
  draw is a real number in [0, 1) supplied by the caller, and
  `Math.floor(draw * n)` turns it into an index. The wall-clock hour is a
  parameter too.
 */
module Helpers {
  import opened JsText
  import opened Seqs

  /** A value `Math.random()` can return. */
  type Draw = r: real | 0.0 <= r < 1.0 witness 0.0

  /** `Math.floor(r * n)`: always an index into a collection of size `n`. */
  function DrawIndex(r: Draw, n: nat): (i: nat)
    requires n > 0
    ensures i < n
    ensures i as real <= r * n as real < i as real + 1.0
  {
    ScaledBelow(r, n as real);
    (r * n as real).Floor
  }

  lemma ScaledBelow(r: real, x: real)
    requires 0.0 <= r < 1.0 && x > 0.0
    ensures 0.0 <= r * x < x
  {
  }

  /** The draw that selects index `i` out of `n`. */
  lemma DrawFor(i: nat, n: nat) returns (r: Draw)
    requires i < n
    ensures DrawIndex(r, n) == i
  {
    r := i as real / n as real;
    assert r * n as real == i as real;
  }

  // ---------------------------------------------------------------------
  // Reconnect codes

  /** The 32 characters of a reconnect code; no I, O, 0 or 1. */
  const RECONNECT_ALPHABET: string := "ABCDEFGHJKLMNPQRSTUVWXYZ23456789"

  const RECONNECT_CODE_LENGTH: nat := 6

  /** Characters in strictly increasing order are all different. */
  lemma {:induction false} AscendingDistinct(s: string)
    requires forall i :: 0 < i < |s| ==> s[i - 1] < s[i]
    ensures forall i, j :: 0 <= i < j < |s| ==> s[i] < s[j]
    decreases |s|
  {
    if |s| > 1 {
      var t := s[..|s| - 1];
      AscendingDistinct(t);
      forall i, j | 0 <= i < j < |s| ensures s[i] < s[j] {
        if j < |s| - 1 {
          assert s[i] == t[i] && s[j] == t[j];
        } else if i < j - 1 {
          assert s[i] == t[i] && s[j - 1] == t[j - 1];
        }
      }
    }
  }

  lemma AlphabetShape()
    ensures |RECONNECT_ALPHABET| == 32 && Distinct(RECONNECT_ALPHABET)
    ensures 'I' !in RECONNECT_ALPHABET && 'O' !in RECONNECT_ALPHABET
    ensures '0' !in RECONNECT_ALPHABET && '1' !in RECONNECT_ALPHABET
  {
    AlphabetDistinct();
    AlphabetExcludes();
  }

  /** In an ascending string, a character strictly between two neighbours
      does not occur. */
  lemma AscendingGap(s: string, m: nat, c: char)
    requires forall i :: 0 < i < |s| ==> s[i - 1] < s[i]
    requires m + 1 < |s| && s[m] < c < s[m + 1]
    ensures c !in s
  {
    AscendingDistinct(s);
  }

  /** An ascending string holds nothing outside [first, last]. */
  lemma AscendingBounds(s: string, c: char)
    requires forall i :: 0 < i < |s| ==> s[i - 1] < s[i]
    requires |s| > 0 && (c < s[0] || s[|s| - 1] < c)
    ensures c !in s
  {
    AscendingDistinct(s);
  }

  lemma AlphabetExcludes()
    ensures 'I' !in RECONNECT_ALPHABET && 'O' !in RECONNECT_ALPHABET
    ensures '0' !in RECONNECT_ALPHABET && '1' !in RECONNECT_ALPHABET
  {
    var letters, digits := RECONNECT_ALPHABET[..24], RECONNECT_ALPHABET[24..];
    assert letters == "ABCDEFGHJKLMNPQRSTUVWXYZ" && digits == "23456789";
    assert RECONNECT_ALPHABET == letters + digits;
    AscendingGap(letters, 7, 'I');
    AscendingGap(letters, 12, 'O');
    AscendingBounds(letters, '0');
    AscendingBounds(letters, '1');
    AscendingBounds(digits, 'I');
    AscendingBounds(digits, 'O');
    AscendingBounds(digits, '0');
    AscendingBounds(digits, '1');
  }

  lemma AlphabetDistinct()
    ensures |RECONNECT_ALPHABET| == 32 && Distinct(RECONNECT_ALPHABET)
  {
    var letters, digits := RECONNECT_ALPHABET[..24], RECONNECT_ALPHABET[24..];
    assert letters == "ABCDEFGHJKLMNPQRSTUVWXYZ" && digits == "23456789";
    AscendingDistinct(letters);
    AscendingDistinct(digits);
    forall i, j | 0 <= i < j < 32 ensures RECONNECT_ALPHABET[i] != RECONNECT_ALPHABET[j] {
      if j < 24 {
        assert letters[i] < letters[j];
      } else if i >= 24 {
        assert digits[i - 24] < digits[j - 24];
      } else {
        if i > 0 { assert letters[0] < letters[i]; }
        if j < 31 { assert digits[j - 24] < digits[7]; }
        assert 'A' <= letters[i] && digits[j - 24] <= '9';
      }
    }
  }

  predicate IsReconnectCode(code: string) {
    |code| == RECONNECT_CODE_LENGTH && forall k :: 0 <= k < |code| ==> code[k] in RECONNECT_ALPHABET
  }

  /** `chars.charAt(i)`: the one-character string at `i`, or the empty
      string when `i` is out of range. */
  function CharAt(s: string, i: int): string {
    if 0 <= i < |s| then [s[i]] else ""
  }

  /** The code a run of draws produces, by position. */
  function CodeChar(draws: seq<Draw>, k: nat): char
    requires k < |draws|
  {
    RECONNECT_ALPHABET[DrawIndex(draws[k], |RECONNECT_ALPHABET|)]
  }

  /** `generateReconnectCode()`: six draws, each appending one alphabet
      character. */
  method GenerateReconnectCode(draws: seq<Draw>) returns (code: string)
    requires |draws| == RECONNECT_CODE_LENGTH
    ensures IsReconnectCode(code)
    ensures forall k :: 0 <= k < |code| ==> code[k] == CodeChar(draws, k)
  {
    code := "";
    for i := 0 to RECONNECT_CODE_LENGTH
      invariant |code| == i
      invariant forall k :: 0 <= k < i ==> code[k] == CodeChar(draws, k)
    {
      code := code + CharAt(RECONNECT_ALPHABET, DrawIndex(draws[i], |RECONNECT_ALPHABET|));
    }
  }

  /** Every well-formed code is produced by some run of draws. */
  lemma EveryCodeReachable(code: string) returns (draws: seq<Draw>)
    requires IsReconnectCode(code)
    ensures |draws| == RECONNECT_CODE_LENGTH
    ensures forall k :: 0 <= k < |code| ==> code[k] == CodeChar(draws, k)
  {
    draws := [];
    var n := |RECONNECT_ALPHABET|;
    for i := 0 to RECONNECT_CODE_LENGTH
      invariant |draws| == i
      invariant forall k :: 0 <= k < i ==> code[k] == CodeChar(draws, k)
    {
      var idx :| 0 <= idx < n && RECONNECT_ALPHABET[idx] == code[i];
      var r := DrawFor(idx, n);
      draws := draws + [r];
      assert CodeChar(draws, i) == code[i];
    }
  }

  // ---------------------------------------------------------------------
  // Usernames

  const USERNAME_PREFIX: string := "GHOST-"

  /** `generateUsername()`: "GHOST-" and a five-digit number in
      [10000, 99999]. */
  function GenerateUsername(r: Draw): (name: string)
    ensures |name| == 11 && name[..6] == USERNAME_PREFIX
    ensures AllDigits(name[6..]) && 10000 <= DecimalValue(name[6..]) <= 99999
    ensures DecimalValue(name[6..]) == (r * 90000.0 + 10000.0).Floor
  {
    var n: nat := (r * 90000.0 + 10000.0).Floor;
    assert Pow10(4) == 10000 && Pow10(5) == 100000;
    NatToStringLength(n, 5);
    DecimalRoundTrip(n);
    var name := USERNAME_PREFIX + NatToString(n);
    assert name[6..] == NatToString(n);
    name
  }

  /** Every number in [10000, 99999] is some draw's username. */
  lemma EveryUsernameReachable(n: nat) returns (r: Draw)
    requires 10000 <= n <= 99999
    ensures DecimalValue(GenerateUsername(r)[6..]) == n
  {
    r := (n - 10000) as real / 90000.0;
    assert r * 90000.0 + 10000.0 == n as real;
  }

  // ---------------------------------------------------------------------
  // Welcome prompts

  const DAY_PROMPTS: seq<string> := [
    "Say something you won’t remember tomorrow.",
    "What’s been on your mind today?",
    "Say one thought without explaining it.",
    "What did today make you feel?",
    "What are you avoiding thinking about?",
    "Say something ordinary that feels heavy.",
    "What’s a quiet thought you carry?",
    "What’s something you didn’t say today?",
    "Say one thing honestly.",
    "What’s taking more energy than it should?",
    "What’s a small truth about today?",
    "Say something unfinished.",
    "What’s been repeating in your head?",
    "What feels unresolved right now?",
    "Say a thought you’d usually ignore.",
    "What’s one thing you noticed today?",
    "Say something that doesn’t need a reply.",
    "What feels louder than it should?",
    "What are you carrying silently?",
    "Say one sentence you didn’t plan.",
    "What’s been distracting you today?",
    "Say something real.",
    "What feels simple but isn’t?",
    "Say a thought and let it go."
  ]

  const NIGHT_PROMPTS: seq<string> := [
    "What keeps your mind awake?",
    "Say a thought that comes at night.",
    "What feels heavier after dark?",
    "Say something you wouldn’t say out loud.",
    "What’s easier to admit at night?",
    "What’s looping in your head right now?",
    "Say a thought meant only for the dark.",
    "What do you think about when no one’s around?",
    "Say something you usually hide.",
    "What feels different at night?",
    "Say something unfiltered.",
    "What’s been bothering you quietly?",
    "What comes back when it’s silent?",
    "Say a thought you don’t judge.",
    "What’s a private feeling right now?",
    "Say something you’re not proud of or happy about.",
    "What do you overthink at night?",
    "Say a thought you’d never post.",
    "What feels unresolved when it’s quiet?",
    "Say something you’re afraid to admit.",
    "What feels real only at night?",
    "Say one sentence and leave it.",
    "What thought follows you after dark?",
    "Say something and let the night keep it."
  ]

  /** Day is the hours 6 to 17. */
  predicate IsDaytime(hour: int) {
    hour >= 6 && hour < 18
  }

  /** `getWelcomePrompt()` at the given hour: a prompt from the day pool by
      day and from the night pool otherwise. */
  function WelcomePrompt(hour: int, r: Draw): (p: string)
    ensures IsDaytime(hour) ==> p in DAY_PROMPTS
    ensures !IsDaytime(hour) ==> p in NIGHT_PROMPTS
  {
    var pool := if IsDaytime(hour) then DAY_PROMPTS else NIGHT_PROMPTS;
    pool[DrawIndex(r, |pool|)]
  }

  lemma PoolShape()
    ensures |DAY_PROMPTS| == 24 && |NIGHT_PROMPTS| == 24
  {
  }
}
