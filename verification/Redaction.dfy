/**
 Redaction of one text: `str.replace` run over the remembered secrets, one after another.

 Every replacement puts `***` into the text, and the question is whether that can spell a secret
 again. It cannot, exactly for the secrets that stars neither start, end nor fill.
 */
module Redaction {

  predicate Occurs(p: string, s: string) {
    p <= s || (s != [] && Occurs(p, s[1..]))
  }

  const STARS := "***"

  /** Python's `text.replace(secret, "***")`: leftmost matches, scanning on after each one. */
  function Replace(text: string, secret: string): string
    requires secret != []
  {
    if secret <= text then STARS + Replace(text[|secret|..], secret)
    else if text == [] then []
    else [text[0]] + Replace(text[1..], secret)
  }

  predicate AllLonger(order: seq<string>, n: nat) {
    forall i :: 0 <= i < |order| ==> |order[i]| > n
  }

  predicate Clean(text: string, order: seq<string>) {
    forall i :: 0 <= i < |order| ==> !Occurs(order[i], text)
  }

  /** Replaces the secrets one after another, in the given order. */
  function ReplaceAll(text: string, order: seq<string>): string
    requires AllLonger(order, 0)
  {
    if order == [] then text
    else Replace(ReplaceAll(text, order[..|order| - 1]), order[|order| - 1])
  }

  /** A secret that no `***` can complete: it neither starts nor ends with a star, nor holds three in a row. */
  predicate Safe(secret: string) {
    && secret != []
    && secret[0] != '*'
    && secret[|secret| - 1] != '*'
    && !Occurs(STARS, secret)
  }

  // ---------------------------------------------------------------- occurrence

  lemma {:induction false} OccursAt(p: string, s: string, k: nat)
    requires k <= |s| && p <= s[k..]
    ensures Occurs(p, s)
  {
    if k == 0 {
      assert s[0..] == s;
    } else {
      assert s[1..][k - 1..] == s[k..];
      OccursAt(p, s[1..], k - 1);
    }
  }

  /** A text occurs exactly where some suffix starts with it. */
  lemma {:induction false} OccursIff(p: string, s: string)
    ensures Occurs(p, s) <==> exists k :: 0 <= k <= |s| && p <= s[k..]
  {
    if p <= s {
      assert s[0..] == s;
    } else if Occurs(p, s) {
      OccursIff(p, s[1..]);
      var k :| 0 <= k <= |s[1..]| && p <= s[1..][k..];
      assert s[1..][k..] == s[k + 1..];
    } else {
      forall k | 0 <= k <= |s| ensures !(p <= s[k..]) {
        if p <= s[k..] { OccursAt(p, s, k); }
      }
    }
  }

  lemma {:induction false} OccursInSuffix(p: string, s: string, k: nat)
    requires k <= |s| && Occurs(p, s[k..])
    ensures Occurs(p, s)
  {
    if k == 0 {
      assert s[0..] == s;
    } else {
      assert s[1..][k - 1..] == s[k..];
      OccursInSuffix(p, s[1..], k - 1);
    }
  }

  /** An occurrence of a text that starts with no star cannot begin inside the stars. */
  lemma {:induction false} PastTheStars(p: string, rest: string)
    requires p != [] && p[0] != '*' && Occurs(p, STARS + rest)
    ensures Occurs(p, rest)
  {
    assert (STARS + rest)[1..] == "**" + rest;
    assert ("**" + rest)[1..] == "*" + rest;
    assert ("*" + rest)[1..] == rest;
    assert Occurs(p, "**" + rest);
    assert Occurs(p, "*" + rest);
  }

  // ---------------------------------------------------------------- what a replacement can create

  /** A prefix of the result that stars can neither end nor fill was already a prefix of the text. */
  lemma {:induction false} PrefixWasThere(q: string, text: string, secret: string)
    requires secret != []
    requires q == [] || q[|q| - 1] != '*'
    requires !Occurs(STARS, q)
    requires q <= Replace(text, secret)
    ensures q <= text
  {
    if q != [] {
      if secret <= text {
        assert false;
      }
      assert q[1..] <= Replace(text[1..], secret);
      PrefixWasThere(q[1..], text[1..], secret);
      assert q == [q[0]] + q[1..];
    }
  }

  /** Replacing one secret never brings another, safe one into the text. */
  lemma {:induction false} NothingSafeIsCreated(p: string, text: string, secret: string)
    requires secret != [] && Safe(p)
    requires Occurs(p, Replace(text, secret))
    ensures Occurs(p, text)
  {
    var r := Replace(text, secret);
    if secret <= text {
      var rest := Replace(text[|secret|..], secret);
      PastTheStars(p, rest);
      NothingSafeIsCreated(p, text[|secret|..], secret);
      OccursInSuffix(p, text, |secret|);
    } else if text != [] {
      assert r[1..] == Replace(text[1..], secret);
      if p <= r {
        PrefixWasThere(p, text, secret);
      } else {
        NothingSafeIsCreated(p, text[1..], secret);
      }
    }
  }

  /** Replacing a safe secret removes every occurrence of it, overlapping ones included. */
  lemma {:induction false} ReplaceScrubs(text: string, secret: string)
    requires Safe(secret)
    ensures !Occurs(secret, Replace(text, secret))
  {
    var r := Replace(text, secret);
    if Occurs(secret, r) {
      if secret <= text {
        ReplaceScrubs(text[|secret|..], secret);
        PastTheStars(secret, Replace(text[|secret|..], secret));
      } else if text != [] {
        ReplaceScrubs(text[1..], secret);
        assert r[1..] == Replace(text[1..], secret);
        PrefixWasThere(secret, text, secret);
      }
    }
  }

  /** After every secret has had its turn, no safe one is left, whatever the order and the overlaps. */
  lemma {:induction false} SafeNeverSurvives(text: string, order: seq<string>, secret: string)
    requires AllLonger(order, 0)
    requires secret in order && Safe(secret)
    ensures !Occurs(secret, ReplaceAll(text, order))
  {
    var init, last := order[..|order| - 1], order[|order| - 1];
    if secret == last {
      ReplaceScrubs(ReplaceAll(text, init), secret);
    } else {
      var i :| 0 <= i < |order| && order[i] == secret;
      assert init[i] == secret;
      SafeNeverSurvives(text, init, secret);
      if Occurs(secret, ReplaceAll(text, order)) {
        NothingSafeIsCreated(secret, ReplaceAll(text, init), last);
      }
    }
  }

  // ---------------------------------------------------------------- when the text changes at all

  /** A secret longer than the stars shortens the text exactly when it occurs in it. */
  lemma {:induction false} ReplaceShortens(text: string, secret: string)
    requires |secret| > |STARS|
    ensures if Occurs(secret, text) then |Replace(text, secret)| < |text| else Replace(text, secret) == text
  {
    if secret <= text {
      ReplaceShortens(text[|secret|..], secret);
    } else if text != [] {
      ReplaceShortens(text[1..], secret);
    }
  }

  /** The text comes back unchanged exactly when no secret occurs in it; otherwise it gets shorter. */
  lemma {:induction false} UnchangedIffClean(text: string, order: seq<string>)
    requires AllLonger(order, |STARS|)
    ensures |ReplaceAll(text, order)| <= |text|
    ensures |ReplaceAll(text, order)| == |text| ==> ReplaceAll(text, order) == text
    ensures ReplaceAll(text, order) == text <==> Clean(text, order)
  {
    if order != [] {
      var init, last := order[..|order| - 1], order[|order| - 1];
      UnchangedIffClean(text, init);
      ReplaceShortens(ReplaceAll(text, init), last);
      assert Clean(text, order) <==> Clean(text, init) && !Occurs(last, text);
    }
  }

  /** Redacting again, even with ties broken another way, changes nothing when every secret is safe. */
  lemma {:induction false} RedactionIsIdempotent(text: string, order: seq<string>, again: seq<string>)
    requires AllLonger(order, |STARS|) && (forall s :: s in order ==> Safe(s))
    requires AllLonger(again, |STARS|) && (forall s :: s in again ==> s in order)
    ensures ReplaceAll(ReplaceAll(text, order), again) == ReplaceAll(text, order)
  {
    forall s | s in again ensures !Occurs(s, ReplaceAll(text, order)) {
      SafeNeverSurvives(text, order, s);
    }
    UnchangedIffClean(ReplaceAll(text, order), again);
  }

  /**
   What `replace` is: up to the first occurrence the text is copied, `***` stands for it, and the rest is
   treated the same. With a text in which the secret does not occur, which comes back as it is, this
   decides every text.
   */
  lemma {:induction false} ReplaceFirst(before: string, secret: string, after: string)
    requires secret != []
    requires forall k :: 0 <= k < |before| ==> !(secret <= before[k..] + secret + after)
    ensures Replace(before + secret + after, secret) == before + "***" + Replace(after, secret)
  {
    var text := before + secret + after;
    if before == [] {
      assert text == secret + after;
      assert text[|secret|..] == after;
      assert STARS + Replace(after, secret) == before + STARS + Replace(after, secret);
    } else {
      assert before[0..] == before;
      assert text[1..] == before[1..] + secret + after;
      forall k | 0 <= k < |before[1..]| ensures !(secret <= before[1..][k..] + secret + after) {
        assert before[1..][k..] == before[k + 1..];
      }
      ReplaceFirst(before[1..], secret, after);
      assert before == [before[0]] + before[1..];
    }
  }

  // ---------------------------------------------------------------- unsafe secrets

  /** Shorter than the secret, so it cannot contain it. */
  lemma {:induction false} TooShort(text: string, secret: string)
    requires |text| < |secret|
    ensures Replace(text, secret) == text
  {
    if text != [] { TooShort(text[1..], secret); }
  }

  /** The only match is the one placed at `|before|`; what precedes it is copied and what follows is too short. */
  lemma {:induction false} OnlyMatch(before: string, secret: string, after: string)
    requires secret != [] && |after| < |secret|
    requires forall k :: 0 <= k < |before| ==> !(secret <= before[k..] + secret + after)
    ensures Replace(before + secret + after, secret) == before + STARS + after
  {
    ReplaceFirst(before, secret, after);
    TooShort(after, secret);
  }

  /** A text in which an unsafe secret, alone in memory, is spelled again by its own replacement. */
  lemma {:induction false} UnsafeComesBack(secret: string) returns (text: string)
    requires |secret| > |STARS| && !Safe(secret)
    ensures Occurs(secret, Replace(text, secret))
  {
    var n := |secret|;
    if secret[0] == '*' {
      text := [] + secret + secret[1..];
      OnlyMatch([], secret, secret[1..]);
      assert (STARS + secret[1..])[2..] == secret;
      OccursAt(secret, [] + STARS + secret[1..], 2);
    } else if secret[n - 1] == '*' {
      text := EndsWithStar(secret);
    } else {
      text := HoldsThreeStars(secret);
    }
  }

  lemma {:induction false} EndsWithStar(secret: string) returns (text: string)
    requires |secret| > 1 && secret[0] != '*' && secret[|secret| - 1] == '*'
    ensures Occurs(secret, Replace(text, secret))
  {
    var before := secret[..|secret| - 1];
    text := before + secret + [];
    forall k | 0 <= k < |before| ensures !(secret <= before[k..] + secret + []) {
      var tail := before[k..] + secret + [];
      assert tail[0] == tail[|secret| - 1] == secret[k];
    }
    OnlyMatch(before, secret, []);
    assert secret <= before + STARS + [];
  }

  lemma {:induction false} HoldsThreeStars(secret: string) returns (text: string)
    requires secret != [] && secret[0] != '*' && secret[|secret| - 1] != '*' && Occurs(STARS, secret)
    ensures Occurs(secret, Replace(text, secret))
  {
    var k := FirstStars(secret);
    var before, after := secret[..k], secret[k + 3..];
    text := before + secret + after;
    forall j | 0 <= j < |before| ensures !(secret <= before[j..] + secret + after) {
      // A match here would put the secret's first three stars on characters that start earlier in it.
      var tail := before[j..] + secret + after;
      assert tail[k] == secret[j] && tail[k + 1] == secret[j + 1] && tail[k + 2] == secret[j + 2];
    }
    OnlyMatch(before, secret, after);
    assert before + STARS + after == secret;
  }

  /** Where the first three stars in a row start. */
  lemma {:induction false} FirstStars(s: string) returns (k: nat)
    requires Occurs(STARS, s)
    ensures k + 3 <= |s| && s[k] == s[k + 1] == s[k + 2] == '*'
    ensures forall i :: 0 <= i < k ==> !(s[i] == s[i + 1] == s[i + 2] == '*')
  {
    if STARS <= s {
      k := 0;
      assert s[..3] == STARS;
    } else {
      var m := FirstStars(s[1..]);
      k := m + 1;
      forall i | 0 <= i < k ensures !(s[i] == s[i + 1] == s[i + 2] == '*') {
        if i == 0 {
          assert s[..3] == [s[0], s[1], s[2]];
        } else {
          assert s[1..][i - 1] == s[i] && s[1..][i] == s[i + 1] && s[1..][i + 1] == s[i + 2];
        }
      }
    }
  }

  ghost predicate AlwaysScrubbed(secret: string) {
    forall text: string, order: seq<string> ::
      secret in order && AllLonger(order, |STARS|) ==> !Occurs(secret, ReplaceAll(text, order))
  }

  /**
   Exactly which secrets redaction can be trusted with: a secret is scrubbed from every text, no
   matter what else is remembered and in which order, if and only if it is safe.
   */
  lemma {:induction false} ScrubbedAlwaysIffSafe(secret: string)
    requires |secret| > |STARS|
    ensures Safe(secret) <==> AlwaysScrubbed(secret)
  {
    if Safe(secret) {
      forall text: string, order: seq<string> | secret in order && AllLonger(order, |STARS|)
        ensures !Occurs(secret, ReplaceAll(text, order))
      {
        SafeNeverSurvives(text, order, secret);
      }
    } else {
      var text := UnsafeComesBack(secret);
      assert [secret][..0] == [];
      assert ReplaceAll(text, [secret]) == Replace(text, secret);
      assert secret in [secret] && AllLonger([secret], |STARS|);
    }
  }
}
