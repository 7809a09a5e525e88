/**
 `String.toLocaleLowerCase('ko')`: the default lower-casing of section 3.13 of the Unicode Standard.  Every
 character is mapped by itself, but for the capital sigma, whose lower case depends on its neighbours.
 */
module LowerCase {
  /** The character tables: the lower-case mapping, and the properties Cased and Case_Ignorable. */
  datatype Casing = Casing(mapping: char -> string, cased: char -> bool, ignorable: char -> bool)

  const SIGMA := 'Σ'

  /** The nearest character before, case-ignorable ones aside, is a cased letter. */
  predicate AfterCased(before: string, casing: Casing) {
    exists k :: 0 <= k < |before| && casing.cased(before[k]) &&
      forall j :: k < j < |before| ==> casing.ignorable(before[j])
  }

  predicate BeforeCased(after: string, casing: Casing) {
    exists k :: 0 <= k < |after| && casing.cased(after[k]) &&
      forall j :: 0 <= j < k ==> casing.ignorable(after[j])
  }

  /** The search for the nearest letter, one character at a time, away from the sigma. */
  lemma NearestBefore(c: char, text: string, casing: Casing)
    ensures !AfterCased("", casing)
    ensures AfterCased(text + [c], casing) <==> casing.cased(c) || (casing.ignorable(c) && AfterCased(text, casing))
  {
    var before := text + [c];
    assert before[|text|] == c;
    if k :| 0 <= k < |text| && casing.cased(before[k]) && forall j :: k < j < |before| ==> casing.ignorable(before[j]) {
      assert casing.cased(text[k]);
      forall j | k < j < |text| ensures casing.ignorable(text[j]) { assert before[j] == text[j]; }
    }
    if k :| 0 <= k < |text| && casing.cased(text[k]) && forall j :: k < j < |text| ==> casing.ignorable(text[j]) {
      assert before[k] == text[k];
    }
  }

  lemma NearestAfter(c: char, text: string, casing: Casing)
    ensures !BeforeCased("", casing)
    ensures BeforeCased([c] + text, casing) <==> casing.cased(c) || (casing.ignorable(c) && BeforeCased(text, casing))
  {
    var after := [c] + text;
    assert after[0] == c;
    if k :| 0 <= k < |text| && casing.cased(text[k]) && forall j :: 0 <= j < k ==> casing.ignorable(text[j]) {
      assert after[k + 1] == text[k];
    }
    if k :| 0 < k < |after| && casing.cased(after[k]) && forall j :: 0 <= j < k ==> casing.ignorable(after[j]) {
      assert text[k - 1] == after[k];
      forall j | 0 <= j < k - 1 ensures casing.ignorable(text[j]) { assert after[j + 1] == text[j]; }
    }
  }

  /** The condition Final_Sigma. */
  predicate FinalSigma(before: string, after: string, casing: Casing) {
    AfterCased(before, casing) && !BeforeCased(after, casing)
  }

  function LowerChar(before: string, c: char, after: string, casing: Casing): string {
    if c == SIGMA then (if FinalSigma(before, after, casing) then "ς" else "σ") else casing.mapping(c)
  }

  /** The lower case of `text` where it stands between `before` and `after`. */
  function LowerWithin(before: string, text: string, after: string, casing: Casing): string
    decreases |text|
  {
    if text == "" then ""
    else
      LowerChar(before, text[0], text[1..] + after, casing) + LowerWithin(before + [text[0]], text[1..], after, casing)
  }

  function Lower(text: string, casing: Casing): string {
    LowerWithin("", text, "", casing)
  }

  lemma {:induction false} LowerCat(before: string, a: string, b: string, after: string, casing: Casing)
    ensures LowerWithin(before, a + b, after, casing)
            == LowerWithin(before, a, b + after, casing) + LowerWithin(before + a, b, after, casing)
    decreases |a|
  {
    hide LowerChar;
    if a == "" {
      assert a + b == b && before + a == before;
    } else {
      assert (a + b)[0] == a[0] && (a + b)[1..] == a[1..] + b;
      assert (a[1..] + b) + after == a[1..] + (b + after);
      LowerCat(before + [a[0]], a[1..], b, after, casing);
      assert (before + [a[0]]) + a[1..] == before + a;
    }
  }

  /** No sigma of the text is final in the one place and not in the other. */
  ghost predicate SameSigmas(before: string, before': string,
      text: string, after: string, after': string, casing: Casing)
  {
    forall k :: 0 <= k < |text| && text[k] == SIGMA ==>
      (FinalSigma(before + text[..k], text[k + 1..] + after, casing) <==>
       FinalSigma(before' + text[..k], text[k + 1..] + after', casing))
  }

  /** A text has the same lower case in two places exactly when its sigmas are final in the same spots. */
  lemma {:induction false} SameLowerIff(before: string, before': string,
      text: string, after: string, after': string, casing: Casing)
    ensures |LowerWithin(before, text, after, casing)| == |LowerWithin(before', text, after', casing)|
    ensures LowerWithin(before, text, after, casing) == LowerWithin(before', text, after', casing)
            <==> SameSigmas(before, before', text, after, after', casing)
    decreases |text|
  {
    hide FinalSigma, SameSigmas;
    if text == "" {
      NoSigmas(before, before', text, after, after', casing);
    } else {
      var c, rest := text[0], text[1..];
      SameLowerIff(before + [c], before' + [c], rest, after, after', casing);
      var head, head' := LowerChar(before, c, rest + after, casing), LowerChar(before', c, rest + after', casing);
      var tail := LowerWithin(before + [c], rest, after, casing);
      var tail' := LowerWithin(before' + [c], rest, after', casing);
      HeadsDiffer(head, tail, head', tail');
      assert "ς"[0] != "σ"[0];
      SigmasUnroll(before, before', text, after, after', casing);
    }
  }

  lemma NoSigmas(before: string, before': string, text: string, after: string, after': string, casing: Casing)
    requires SIGMA !in text
    ensures SameSigmas(before, before', text, after, after', casing)
  {}

  lemma HeadsDiffer(head: string, tail: string, head': string, tail': string)
    requires |head| == |head'|
    ensures head + tail == head' + tail' <==> head == head' && tail == tail'
  {
    var whole, whole' := head + tail, head' + tail';
    assert whole[..|head|] == head && whole[|head|..] == tail;
    assert whole'[..|head|] == head' && whole'[|head|..] == tail';
  }

  lemma SigmasUnroll(before: string, before': string, text: string, after: string, after': string, casing: Casing)
    requires text != ""
    ensures SameSigmas(before, before', text, after, after', casing) <==>
            (text[0] == SIGMA ==>
               (FinalSigma(before, text[1..] + after, casing) <==> FinalSigma(before', text[1..] + after', casing))) &&
            SameSigmas(before + [text[0]], before' + [text[0]], text[1..], after, after', casing)
  {
    hide FinalSigma;
    var rest := text[1..];
    assert before + text[..0] == before && before' + text[..0] == before';
    forall k | 0 <= k < |rest|
      ensures (before + [text[0]]) + rest[..k] == before + text[..k + 1]
        && (before' + [text[0]]) + rest[..k] == before' + text[..k + 1] && rest[k + 1..] == text[k + 2..]
    {}
    if SameSigmas(before + [text[0]], before' + [text[0]], rest, after, after', casing) {
      forall k | 1 <= k < |text| && text[k] == SIGMA
        ensures FinalSigma(before + text[..k], text[k + 1..] + after, casing)
           <==> FinalSigma(before' + text[..k], text[k + 1..] + after', casing)
      {
        assert rest[k - 1] == SIGMA;
      }
    }
    if SameSigmas(before, before', text, after, after', casing) {
      forall k | 0 <= k < |rest| && rest[k] == SIGMA
        ensures FinalSigma((before + [text[0]]) + rest[..k], rest[k + 1..] + after, casing)
           <==> FinalSigma((before' + [text[0]]) + rest[..k], rest[k + 1..] + after', casing)
      {
        assert text[k + 1] == SIGMA;
      }
    }
  }

  /** Inside a longer text no sigma of `text` changes its lower case. */
  ghost predicate Stable(before: string, text: string, after: string, casing: Casing) {
    SameSigmas(before, "", text, after, "", casing)
  }

  /** The lower-cased whole holds the lower-cased part in the part's own place exactly when the part is stable. */
  lemma LowerFindsPartIff(before: string, part: string, after: string, casing: Casing)
    ensures var whole, k := Lower(before + part + after, casing), |LowerWithin("", before, part + after, casing)|;
            k + |Lower(part, casing)| <= |whole| &&
            (whole[k..k + |Lower(part, casing)|] == Lower(part, casing) <==> Stable(before, part, after, casing))
  {
    hide LowerWithin, SameSigmas;
    LowerCat("", before, part + after, "", casing);
    LowerCat(before, part, after, "", casing);
    assert before + part + after == before + (part + after) && "" + before == before;
    assert (part + after) + "" == part + after && after + "" == after;
    SameLowerIff(before, "", part, after, "", casing);
    var first, mid, last := LowerWithin("", before, part + after, casing), LowerWithin(before, part, after, casing),
      LowerWithin(before + part, after, "", casing);
    assert Lower(before + part + after, casing) == first + (mid + last);
    assert (first + (mid + last))[|first|..|first| + |mid|] == mid;
  }

  lemma LowerStep(before: string, c: char, rest: string, casing: Casing)
    ensures LowerWithin(before, [c] + rest, "", casing)
            == LowerChar(before, c, rest, casing) + LowerWithin(before + [c], rest, "", casing)
    ensures LowerWithin(before + [c], "", "", casing) == ""
  {
    assert ([c] + rest)[1..] == rest && rest + "" == rest;
  }

  /** A sigma at the end of a word. */
  lemma SigmaLast(a: char, casing: Casing)
    requires a != SIGMA && casing.cased(a)
    ensures Lower([a, SIGMA], casing) == casing.mapping(a) + "ς"
  {
    hide LowerWithin;
    assert AfterCased([a], casing) by { assert casing.cased([a][0]); }
    LowerStep("", a, [SIGMA], casing);
    LowerStep([a], SIGMA, "", casing);
    assert "" + [a] == [a] && [SIGMA] + "" == [SIGMA] && [a, SIGMA] == [a] + [SIGMA];
  }

  /** A sigma inside one. */
  lemma SigmaInside(a: char, b: char, casing: Casing)
    requires a != SIGMA && b != SIGMA && casing.cased(a) && casing.cased(b)
    ensures Lower([a, SIGMA, b], casing) == casing.mapping(a) + "σ" + casing.mapping(b)
  {
    hide LowerWithin;
    assert BeforeCased([b], casing) by { assert casing.cased([b][0]); }
    LowerStep("", a, [SIGMA, b], casing);
    LowerStep([a], SIGMA, [b], casing);
    LowerStep([a] + [SIGMA], b, "", casing);
    assert "" + [a] == [a] && [b] + "" == [b] && [SIGMA] + [b] == [SIGMA, b] && [a] + [SIGMA, b] == [a, SIGMA, b];
    assert casing.mapping(a) + ("σ" + casing.mapping(b)) == casing.mapping(a) + "σ" + casing.mapping(b);
  }

  lemma SigmaMoves(a: char, b: char, casing: Casing)
    requires a != SIGMA && b != SIGMA && casing.cased(a) && casing.cased(b)
    ensures !Stable("", [a, SIGMA], [b], casing)
  {
    assert AfterCased([a], casing) by { assert casing.cased([a][0]); }
    assert BeforeCased([b], casing) by { assert casing.cased([b][0]); }
    var text := [a, SIGMA];
    assert text[1] == SIGMA && text[..1] == [a] && text[2..] == "";
    assert "" + [b] == [b] && "" + "" == "" && "" + [a] == [a];
  }
}
