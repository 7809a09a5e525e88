/** What the converter of HangulKeyboard promises, for texts of any length. */
module HangulLaws {
  import opened Options
  import opened HangulKeyboard
  import opened LowerCase

  // ---------------------------------------------------------------- facts about the tables

  predicate IsInitial(jamo: char) { InitialIndex(jamo).Some? }

  /** ㄸ, ㅃ and ㅉ can be typed after a medial but are not finals of any syllable. */
  predicate IsTense(jamo: char) { jamo == 'ㄸ' || jamo == 'ㅃ' || jamo == 'ㅉ' }

  predicate IsFinal(jamo: char) { FinalJamoIndex(jamo).Some? }

  /** The states the converter can be in. */
  predicate Proper(p: Pending) {
    match p
    case Nothing => true
    case Lead(i) => IsInitial(i)
    case Open(i, m) => IsInitial(i) && IsVowel(m)
    case Closed(i, m, f) => IsInitial(i) && IsVowel(m) && (IsFinal(f) || IsTense(f))
  }

  lemma KeyTable(c: char)
    requires IsKey(c)
    ensures var j := KeyToJamo(c).value; KeyOf(j) == Some(c) && (IsVowel(j) || IsInitial(j))
  {}

  lemma KeyOfTable(j: char)
    requires KeyOf(j).Some?
    ensures KeyToJamo(KeyOf(j).value) == Some(j)
  {}

  lemma KeyIsPlain(c: char)
    requires IsKey(c)
    ensures c as int < 128 && KeyOf(c).None? && SplitFinal(c).None? && SplitMedial(c).None?
  {}

  lemma InitialTable(j: char)
    requires IsInitial(j)
    ensures KeyOf(j).Some? && !IsVowel(j)
  {}

  lemma InitialIsFinal(j: char)
    requires IsInitial(j)
    ensures SplitFinal(j).None? && (IsFinal(j) || IsTense(j))
  {}

  lemma InitialIndexTable(j: char)
    requires IsInitial(j)
    ensures InitialIndex(j).value < 19 && InitialAt(InitialIndex(j).value) == j
  {}

  lemma MedialIsNoInitial(j: char)
    requires IsVowel(j)
    ensures !IsInitial(j)
  {}

  lemma MedialIsNoFinal(j: char)
    requires IsVowel(j)
    ensures SplitFinal(j).None?
  {}

  lemma MedialTable(j: char)
    requires IsVowel(j)
    ensures !IsInitial(j) && SplitFinal(j).None?
  {
    hide InitialIndex, SplitFinal, MedialIndex;
    MedialIsNoInitial(j);
    MedialIsNoFinal(j);
  }

  lemma MedialParts(j: char)
    requires IsVowel(j)
    ensures KeyOf(j).Some? != SplitMedial(j).Some?
  {}

  lemma MedialIndexTable(j: char)
    requires IsVowel(j)
    ensures MedialIndex(j).value < 21 && MedialAt(MedialIndex(j).value) == j
  {}

  lemma FinalTable(j: char)
    requires IsFinal(j) || IsTense(j)
    ensures KeyOf(j).Some? != SplitFinal(j).Some?
  {}

  lemma SingleFinal(j: char)
    requires IsFinal(j) || IsTense(j)
    requires SplitFinal(j).None?
    ensures IsInitial(j)
  {}

  lemma FinalIndexTable(j: char)
    requires IsFinal(j)
    ensures 0 < FinalJamoIndex(j).value < 28 && FinalAt(FinalJamoIndex(j).value) == j
  {}

  lemma CombinedMedialTable(a: char, b: char)
    requires CombinedMedial(a, b).Some?
    ensures var j := CombinedMedial(a, b).value;
            IsVowel(j) && SplitMedial(j) == Some((a, b)) && forall x :: CombinedMedial(j, x).None?
    ensures forall x :: CombinedMedial(b, x).None?
  {}

  lemma SplitMedialTable(m: char)
    requires SplitMedial(m).Some?
    ensures var (a, b) := SplitMedial(m).value;
            IsVowel(a) && IsVowel(b) && KeyOf(a).Some? && KeyOf(b).Some? && CombinedMedial(a, b) == Some(m)
  {}

  lemma SplitMedialIsCompound(m: char)
    requires SplitMedial(m).Some?
    ensures IsVowel(m) && SplitFinal(m).None? && KeyOf(m).None?
  {}

  lemma CombinedFinalTable(a: char, b: char)
    requires CombinedFinal(a, b).Some?
    ensures SplitFinal(CombinedFinal(a, b).value) == Some((a, b))
  {}

  lemma SplitFinalTable(f: char)
    requires SplitFinal(f).Some?
    ensures var (a, b) := SplitFinal(f).value;
            IsFinal(a) && IsInitial(a) && IsFinal(b) && IsInitial(b) && CombinedFinal(a, b) == Some(f)
  {}

  lemma SplitFinalIsCompound(f: char)
    requires SplitFinal(f).Some?
    ensures IsFinal(f) && KeyOf(f).None? && !IsInitial(f)
  {}

  lemma InitialAtTable(n: nat)
    requires n < 19
    ensures InitialIndex(InitialAt(n)) == Some(n)
  {}

  lemma MedialAtTable(n: nat)
    requires n < 21
    ensures MedialIndex(MedialAt(n)) == Some(n)
  {}

  lemma FinalAtTable(n: nat)
    requires 0 < n < 28
    ensures FinalJamoIndex(FinalAt(n)) == Some(n)
  {}

  // ---------------------------------------------------------------- composing and decomposing

  predicate FinalSlot(f: string) {
    f == "" || (|f| == 1 && (IsFinal(f[0]) || IsTense(f[0])))
  }

  /** The pending state whose flush is `Compose(i, m, f)`. */
  function Block(i: char, m: char, f: string): Pending
    requires FinalSlot(f)
  {
    if f == "" then Open(i, m) else Closed(i, m, f[0])
  }

  predicate Complete(p: Pending) {
    Proper(p) && (p.Open? || p.Closed?) && (p.Closed? ==> IsFinal(p.final))
  }

  lemma Divide(i: nat, m: nat, f: nat)
    requires m < 21 && f < 28
    ensures var n := (i * 21 + m) * 28 + f; n / 588 == i && n % 588 / 28 == m && n % 28 == f
  {}

  /** Composition falls back to raw jamo exactly for a tense final; otherwise it inverts `PendingOf`. */
  lemma ComposeInverts(i: char, m: char, f: string)
    requires IsInitial(i) && IsVowel(m) && FinalSlot(f)
    ensures f != "" && IsTense(f[0]) <==> Compose(i, m, f) == [i, m] + f
    ensures f != "" && IsTense(f[0]) <==> !(|Compose(i, m, f)| == 1 && IsSyllable(Compose(i, m, f)[0]))
    ensures Complete(Block(i, m, f)) ==> PendingOf(Compose(i, m, f)[0]) == Block(i, m, f)
  {
    hide InitialIndex, MedialIndex, InitialAt, MedialAt, FinalAt;
    InitialIndexTable(i);
    MedialIndexTable(m);
    if f != "" && IsTense(f[0]) {
      assert FinalJamoIndex(f[0]).None?;
    } else {
      if f != "" { FinalIndexTable(f[0]); }
      var fi := FinalIndex(f).value;
      Divide(InitialIndex(i).value, MedialIndex(m).value, fi);
    }
  }

  /** Every one of the 11172 syllables is the flush of its own decomposition. */
  lemma PendingOfInverts(c: char)
    requires IsSyllable(c)
    ensures Complete(PendingOf(c)) && Flush(PendingOf(c)) == [c]
  {
    hide InitialAt, MedialAt, FinalAt, InitialIndex, MedialIndex, FinalJamoIndex;
    var n := c as int - HANGUL_BASE;
    InitialAtTable(n / 588);
    MedialAtTable(n % 588 / 28);
    if n % 28 != 0 { FinalAtTable(n % 28); }
    assert n == (n / 588 * 21 + n % 588 / 28) * 28 + n % 28;
  }

  lemma StepProper(p: Pending, c: char)
    requires Proper(p)
    ensures Proper(Step(p, c).next)
  {
    if IsKey(c) {
      KeyTable(c);
      var j := KeyToJamo(c).value;
      if IsVowel(j) {
        if p.Open? && CombinedMedial(p.medial, j).Some? { CombinedMedialTable(p.medial, j); }
        if p.Closed? {
          if SplitFinal(p.final).Some? { SplitFinalTable(p.final); } else { SingleFinal(p.final); }
        }
      } else {
        InitialIsFinal(j);
        if p.Closed? && CombinedFinal(p.final, j).Some? {
          CombinedFinalTable(p.final, j);
          SplitFinalIsCompound(CombinedFinal(p.final, j).value);
        }
      }
    }
  }

  // ---------------------------------------------------------------- typing, then converting

  lemma RunCat(p: Pending, c: char, rest: string)
    ensures Run(p, [c] + rest) == Step(p, c).emitted + Run(Step(p, c).next, rest)
  {
    assert ([c] + rest)[0] == c && ([c] + rest)[1..] == rest;
  }

  /** Two keys, initial then vowel, push a complete syllable out and open the next one. */
  lemma TypeOpening(p: Pending, i: char, v: char, rest: string)
    requires p.Nothing? || Complete(p)
    requires IsInitial(i) && IsVowel(v) && KeyOf(i).Some? && KeyOf(v).Some?
    ensures Run(p, [KeyOf(i).value, KeyOf(v).value] + rest) == Flush(p) + Run(Open(i, v), rest)
  {
    hide KeyToJamo, KeyOf, InitialIndex, MedialIndex, FinalJamoIndex,
      CombinedFinal, CombinedMedial, SplitFinal, Compose;
    var a, b := KeyOf(i).value, KeyOf(v).value;
    KeyOfTable(i);
    KeyOfTable(v);
    InitialTable(i);
    InitialIsFinal(i);
    if p.Closed? && CombinedFinal(p.final, i).Some? { CombinedFinalTable(p.final, i); }
    assert [a, b] + rest == [a] + ([b] + rest);
    RunCat(p, a, [b] + rest);
    RunCat(Step(p, a).next, b, rest);
    if p.Closed? && CombinedFinal(p.final, i).None? {
      assert Run(p, [a, b] + rest) == Compose(p.initial, p.medial, [p.final]) + ("" + Run(Open(i, v), rest));
    }
  }

  lemma SingleKeys(jamo: char)
    requires KeyOf(jamo).Some?
    ensures JamoKeys(jamo) == [KeyOf(jamo).value]
  {
    hide KeyOf, SplitFinal, SplitMedial;
    assert Keys([jamo]) == [KeyOf(jamo).value] + Keys("");
  }

  lemma PairKeys(jamo: char, a: char, b: char)
    requires KeyOf(jamo).None? && KeyOf(a).Some? && KeyOf(b).Some?
    requires SplitFinal(jamo) == Some((a, b)) || (SplitFinal(jamo).None? && SplitMedial(jamo) == Some((a, b)))
    ensures JamoKeys(jamo) == [KeyOf(a).value, KeyOf(b).value]
  {
    hide KeyOf, SplitFinal, SplitMedial;
    assert [a, b][1..] == [b];
    assert Keys([b]) == [KeyOf(b).value];
  }

  lemma CompoundStep(i: char, m: char, a: char, b: char)
    requires SplitMedial(m) == Some((a, b)) && KeyOf(b).Some?
    ensures Step(Open(i, a), KeyOf(b).value) == Move("", Open(i, m))
  {
    hide KeyOf, KeyToJamo, InitialIndex, MedialIndex, CombinedMedial, SplitMedial, Compose, Flush;
    SplitMedialTable(m);
    KeyOfTable(b);
  }

  lemma TypeCompoundOpen(p: Pending, i: char, m: char, rest: string)
    requires p.Nothing? || Complete(p)
    requires IsInitial(i) && KeyOf(i).Some? && SplitMedial(m).Some?
    ensures Run(p, [KeyOf(i).value] + JamoKeys(m) + rest) == Flush(p) + Run(Open(i, m), rest)
  {
    hide KeyOf, JamoKeys, KeyToJamo, InitialIndex, MedialIndex, CombinedMedial,
      SplitMedial, SplitFinal, Compose, FinalJamoIndex, Flush, Step, Run, Complete;
    SplitMedialTable(m);
    SplitMedialIsCompound(m);
    var (a, b) := SplitMedial(m).value;
    PairKeys(m, a, b);
    var k := KeyOf(b).value;
    TypeOpening(p, i, a, [k] + rest);
    CompoundStep(i, m, a, b);
    RunCat(Open(i, a), k, rest);
    assert [KeyOf(i).value] + JamoKeys(m) + rest == [KeyOf(i).value, KeyOf(a).value] + ([k] + rest);
    assert "" + Run(Open(i, m), rest) == Run(Open(i, m), rest);
  }

  lemma TypeOpen(p: Pending, i: char, m: char, rest: string)
    requires p.Nothing? || Complete(p)
    requires IsInitial(i) && IsVowel(m)
    ensures Run(p, JamoKeys(i) + JamoKeys(m) + rest) == Flush(p) + Run(Open(i, m), rest)
  {
    hide KeyOf, JamoKeys, KeyToJamo, InitialIndex, MedialIndex,
      CombinedMedial, SplitMedial, SplitFinal, Compose, FinalJamoIndex, Flush;
    InitialTable(i);
    SingleKeys(i);
    MedialParts(m);
    if KeyOf(m).Some? {
      SingleKeys(m);
      TypeOpening(p, i, m, rest);
      assert JamoKeys(i) + JamoKeys(m) == [KeyOf(i).value, KeyOf(m).value];
    } else {
      TypeCompoundOpen(p, i, m, rest);
    }
  }

  lemma TypeFinal(i: char, m: char, f: char, rest: string)
    requires IsFinal(f)
    ensures Run(Open(i, m), JamoKeys(f) + rest) == Run(Closed(i, m, f), rest)
  {
    hide KeyOf, JamoKeys, KeyToJamo, MedialIndex, InitialIndex, FinalJamoIndex, CombinedFinal, SplitFinal, SplitMedial;
    FinalTable(f);
    if KeyOf(f).Some? {
      SingleKeys(f);
      var k := KeyOf(f).value;
      KeyOfTable(f);
      SingleFinal(f);
      InitialTable(f);
      RunCat(Open(i, m), k, rest);
    } else {
      SplitFinalTable(f);
      var (a, b) := SplitFinal(f).value;
      InitialTable(a);
      InitialTable(b);
      PairKeys(f, a, b);
      KeyOfTable(a);
      KeyOfTable(b);
      var j, k := KeyOf(a).value, KeyOf(b).value;
      RunCat(Open(i, m), j, [k] + rest);
      RunCat(Closed(i, m, a), k, rest);
      assert JamoKeys(f) + rest == [j] + ([k] + rest);
    }
  }

  lemma TypeSyllable(p: Pending, c: char, rest: string)
    requires p.Nothing? || Complete(p)
    requires IsSyllable(c)
    ensures Run(p, SyllableKeys(c) + rest) == Flush(p) + Run(PendingOf(c), rest)
  {
    hide PendingOf, JamoKeys, InitialIndex, MedialIndex, FinalJamoIndex, Compose;
    PendingOfInverts(c);
    var q := PendingOf(c);
    if q.Open? {
      TypeOpen(p, q.initial, q.medial, rest);
    } else {
      TypeOpen(p, q.initial, q.medial, JamoKeys(q.final) + rest);
      TypeFinal(q.initial, q.medial, q.final, rest);
      assert SyllableKeys(c) + rest == JamoKeys(q.initial) + JamoKeys(q.medial) + (JamoKeys(q.final) + rest);
    }
  }

  lemma {:induction false} TypeText(p: Pending, text: string)
    requires p.Nothing? || Complete(p)
    requires NoKeys(text)
    ensures Run(p, Mistyped(text)) == Flush(p) + text
    decreases |text|
  {
    hide PendingOf, InitialIndex, MedialIndex, FinalJamoIndex, Compose, Step, KeyToJamo;
    if text != "" {
      var c, rest := text[0], text[1..];
      assert text == [c] + rest;
      if IsSyllable(c) {
        PendingOfInverts(c);
        TypeSyllable(p, c, Mistyped(rest));
        TypeText(PendingOf(c), rest);
      } else {
        RunCat(p, c, Mistyped(rest));
        TypeText(Nothing, rest);
        assert Step(p, c) == Move(Flush(p) + [c], Nothing) by { Untouched(p, c); }
      }
    }
  }

  lemma Untouched(p: Pending, c: char)
    requires !IsKey(c)
    ensures Step(p, c) == Move(Flush(p) + [c], Nothing)
  {}

  /**
   * Typing a text with the input method off and converting it gives the text back, for every mixture of
   * the 11172 syllables with characters that are not keys.
   */
  lemma ConvertMistyped(text: string)
    requires NoKeys(text)
    ensures Convert(Mistyped(text)) == text
  {
    TypeText(Nothing, text);
  }

  // ---------------------------------------------------------------- no keystroke is lost

  lemma {:induction false} SpellCat(a: string, b: string)
    ensures Spell(a + b) == Spell(a) + Spell(b)
    decreases |a|
  {
    hide CharKeys;
    if a == "" {
      assert a + b == b;
    } else {
      assert (a + b)[0] == a[0] && (a + b)[1..] == a[1..] + b;
      SpellCat(a[1..], b);
    }
  }

  lemma SpellOne(c: char)
    ensures Spell([c]) == CharKeys(c)
  {
    hide CharKeys;
    assert [c][1..] == "";
  }

  lemma JamoIsNotSyllable(j: char)
    requires KeyOf(j).Some? || SplitFinal(j).Some? || SplitMedial(j).Some?
    ensures j as int < HANGUL_BASE
  {}

  lemma SpellJamo(j: char)
    requires IsInitial(j) || IsVowel(j) || IsFinal(j) || IsTense(j)
    ensures CharKeys(j) == JamoKeys(j) && 1 <= |JamoKeys(j)| <= 2
  {
    hide KeyOf, SplitFinal, SplitMedial, InitialIndex, MedialIndex, FinalJamoIndex, JamoKeys, SyllableKeys;
    if IsInitial(j) { InitialTable(j); } else if IsVowel(j) { MedialTable(j); MedialParts(j); } else { FinalTable(j); }
    JamoIsNotSyllable(j);
    if KeyOf(j).Some? {
      SingleKeys(j);
    } else if SplitFinal(j).Some? {
      SplitFinalTable(j);
      var (a, b) := SplitFinal(j).value;
      InitialTable(a);
      InitialTable(b);
      PairKeys(j, a, b);
    } else {
      SplitMedialTable(j);
      PairKeys(j, SplitMedial(j).value.0, SplitMedial(j).value.1);
    }
  }

  /** Whatever is composed, syllable or raw jamo, spells out as the jamo it was composed from. */
  lemma SpellCompose(i: char, m: char, f: string)
    requires IsInitial(i) && IsVowel(m) && FinalSlot(f)
    ensures Spell(Compose(i, m, f)) == PendingKeys(Block(i, m, f))
  {
    hide InitialIndex, MedialIndex, FinalJamoIndex, CharKeys, JamoKeys, PendingOf, Compose;
    ComposeInverts(i, m, f);
    if f != "" && IsTense(f[0]) {
      SpellJamo(i);
      SpellJamo(m);
      SpellJamo(f[0]);
      assert [i, m] + f == [i] + [m] + [f[0]];
      SpellCat([i] + [m], [f[0]]);
      SpellCat([i], [m]);
      SpellOne(i);
      SpellOne(m);
      SpellOne(f[0]);
    } else {
      var c := Compose(i, m, f)[0];
      assert Compose(i, m, f) == [c];
      SpellOne(c);
      SpellSyllable(c);
    }
  }

  lemma SpellSyllable(c: char)
    requires IsSyllable(c)
    ensures CharKeys(c) == PendingKeys(PendingOf(c))
  {}

  lemma SpellFlush(p: Pending)
    requires Proper(p)
    ensures Spell(Flush(p)) == PendingKeys(p)
  {
    hide InitialIndex, MedialIndex, FinalJamoIndex, CharKeys, JamoKeys, Compose;
    match p
    case Nothing =>
    case Lead(i) => SpellOne(i); SpellJamo(i);
    case Open(i, m) => SpellCompose(i, m, "");
    case Closed(i, m, f) => SpellCompose(i, m, [f]);
  }

  /** A vowel key that has nothing to attach to: the converter supplies ㅇ, whose key is d. */
  predicate Bare(p: Pending, c: char) {
    IsKey(c) && IsVowel(KeyToJamo(c).value) &&
    (p.Nothing? || (p.Open? && CombinedMedial(p.medial, KeyToJamo(c).value).None?))
  }

  lemma KeySpelling(c: char)
    requires IsKey(c)
    ensures CharKeys(c) == [c] == JamoKeys(KeyToJamo(c).value)
  {
    hide InitialIndex, MedialIndex, FinalJamoIndex, KeyToJamo, KeyOf, SplitFinal, SplitMedial;
    KeyIsPlain(c);
    KeyTable(c);
    SingleKeys(KeyToJamo(c).value);
  }

  lemma SplitKeys(f: char)
    requires SplitFinal(f).Some?
    ensures JamoKeys(f) == JamoKeys(SplitFinal(f).value.0) + JamoKeys(SplitFinal(f).value.1)
  {
    hide KeyOf, SplitFinal, SplitMedial, InitialIndex, FinalJamoIndex, CombinedFinal, MedialIndex, JamoKeys;
    SplitFinalTable(f);
    SplitFinalIsCompound(f);
    var (a, b) := SplitFinal(f).value;
    InitialTable(a);
    InitialTable(b);
    SingleKeys(a);
    SingleKeys(b);
    PairKeys(f, a, b);
  }

  lemma CombinedKeys(a: char, b: char)
    requires CombinedMedial(a, b).Some?
    ensures JamoKeys(CombinedMedial(a, b).value) == JamoKeys(a) + JamoKeys(b)
  {
    hide KeyOf, SplitFinal, SplitMedial, InitialIndex, FinalJamoIndex, CombinedMedial, MedialIndex, JamoKeys;
    CombinedMedialTable(a, b);
    var m := CombinedMedial(a, b).value;
    SplitMedialTable(m);
    SplitMedialIsCompound(m);
    SingleKeys(a);
    SingleKeys(b);
    PairKeys(m, a, b);
  }

  lemma VowelKeepsKeys(p: Pending, c: char)
    requires Proper(p) && IsKey(c) && IsVowel(KeyToJamo(c).value)
    ensures var move := VowelMove(p, KeyToJamo(c).value);
            Spell(move.emitted) + PendingKeys(move.next) == PendingKeys(p) + (if Bare(p, c) then "d" else "") + [c]
  {
    hide InitialIndex, MedialIndex, FinalJamoIndex, CombinedMedial,
      SplitFinal, KeyToJamo, CharKeys, JamoKeys, Compose, SplitMedial;
    var j := KeyToJamo(c).value;
    KeySpelling(c);
    SilentKey();
    match p
    case Nothing =>
    case Lead(i) =>
    case Open(i, m) =>
      if CombinedMedial(m, j).Some? { CombinedKeys(m, j); } else { SpellCompose(i, m, ""); }
    case Closed(i, m, f) =>
      if SplitFinal(f).Some? {
        SplitFinalTable(f);
        SplitKeys(f);
        SpellCompose(i, m, [SplitFinal(f).value.0]);
      } else {
        SpellCompose(i, m, "");
      }
  }

  lemma SilentKey()
    ensures JamoKeys('ㅇ') == "d"
  {
    SingleKeys('ㅇ');
  }

  lemma ConsonantKeepsKeys(p: Pending, c: char)
    requires Proper(p) && IsKey(c) && !IsVowel(KeyToJamo(c).value)
    ensures var move := ConsonantMove(p, KeyToJamo(c).value);
            Spell(move.emitted) + PendingKeys(move.next) == PendingKeys(p) + [c]
  {
    hide InitialIndex, MedialIndex, FinalJamoIndex, CombinedFinal,
      SplitFinal, KeyToJamo, CharKeys, JamoKeys, Compose, SplitMedial;
    var j := KeyToJamo(c).value;
    KeySpelling(c);
    SpellFlush(p);
    if p.Closed? && CombinedFinal(p.final, j).Some? {
      CombinedFinalTable(p.final, j);
      SplitKeys(CombinedFinal(p.final, j).value);
    }
  }

  lemma StepKeepsKeys(p: Pending, c: char)
    requires Proper(p)
    ensures Spell(Step(p, c).emitted) + PendingKeys(Step(p, c).next)
            == PendingKeys(p) + (if Bare(p, c) then "d" else "") + CharKeys(c)
  {
    hide InitialIndex, MedialIndex, FinalJamoIndex, KeyToJamo, CharKeys,
      JamoKeys, Compose, VowelMove, ConsonantMove, CombinedMedial;
    if IsKey(c) {
      KeySpelling(c);
      if IsVowel(KeyToJamo(c).value) { VowelKeepsKeys(p, c); } else { ConsonantKeepsKeys(p, c); }
    } else {
      SpellFlush(p);
      SpellCat(Flush(p), [c]);
      SpellOne(c);
    }
  }

  /** Whether ㅇ is due before `c`, told from the character before it alone. */
  predicate NeedsSilent(before: Option<char>, c: char) {
    IsKey(c) && IsVowel(KeyToJamo(c).value) &&
    match before
    case None => true
    case Some(b) =>
      !IsKey(b) || (IsVowel(KeyToJamo(b).value) && CombinedMedial(KeyToJamo(b).value, KeyToJamo(c).value).None?)
  }

  /** `text` with the key of ㅇ inserted before every vowel key that needs it. */
  function WithSilent(before: Option<char>, text: string): string
    decreases |text|
  {
    if text == "" then ""
    else (if NeedsSilent(before, text[0]) then "d" else "") + [text[0]] + WithSilent(Some(text[0]), text[1..])
  }

  /** The pending state agrees with the last character read. */
  predicate Follows(before: Option<char>, p: Pending) {
    if before.None? || !IsKey(before.value) then p.Nothing?
    else
      var j := KeyToJamo(before.value).value;
      if IsVowel(j) then p.Open? && (p.medial == j || exists a :: CombinedMedial(a, j) == Some(p.medial))
      else p.Lead? || p.Closed?
  }

  lemma StepFollows(p: Pending, c: char)
    requires Proper(p)
    ensures Follows(Some(c), Step(p, c).next)
  {
    hide InitialIndex, MedialIndex, FinalJamoIndex, CombinedMedial, CombinedFinal, SplitFinal, KeyToJamo, Compose;
  }

  lemma BareIsLocal(before: Option<char>, p: Pending, c: char)
    requires Proper(p) && Follows(before, p)
    ensures Bare(p, c) == NeedsSilent(before, c)
  {
    hide InitialIndex, MedialIndex, FinalJamoIndex, CombinedMedial, KeyToJamo;
    if before.Some? && IsKey(before.value) && p.Open? {
      var j := KeyToJamo(before.value).value;
      if p.medial != j {
        var a :| CombinedMedial(a, j) == Some(p.medial);
        CombinedMedialTable(a, j);
      }
    }
  }

  lemma {:induction false} RunKeepsKeys(before: Option<char>, p: Pending, text: string)
    requires Proper(p) && Follows(before, p)
    ensures Spell(Run(p, text)) == PendingKeys(p) + Spell(WithSilent(before, text))
    decreases |text|
  {
    hide Proper, Follows, PendingKeys, CharKeys, Step, Bare, NeedsSilent, Flush;
    if text == "" {
      SpellFlush(p);
    } else {
      var c, rest := text[0], text[1..];
      var move := Step(p, c);
      StepProper(p, c);
      StepFollows(p, c);
      StepKeepsKeys(p, c);
      BareIsLocal(before, p, c);
      RunKeepsKeys(Some(c), move.next, rest);
      SpellCat(move.emitted, Run(move.next, rest));
      SpellPrefixed(NeedsSilent(before, c), c, WithSilent(Some(c), rest));
      var silent := if NeedsSilent(before, c) then "d" else "";
      Regroup(Spell(move.emitted), PendingKeys(move.next), PendingKeys(p), silent + CharKeys(c),
              Spell(WithSilent(Some(c), rest)));
      assert PendingKeys(p) + silent + CharKeys(c) == PendingKeys(p) + (silent + CharKeys(c));
    }
  }

  lemma Regroup(a: string, b: string, c: string, d: string, tail: string)
    requires a + b == c + d
    ensures a + (b + tail) == c + (d + tail)
  {
    assert (a + b) + tail == a + (b + tail);
    assert (c + d) + tail == c + (d + tail);
  }

  lemma SpellPrefixed(silent: bool, c: char, tail: string)
    ensures var s := if silent then "d" else ""; Spell(s + [c] + tail) == s + CharKeys(c) + Spell(tail)
  {
    hide CharKeys;
    var s := if silent then "d" else "";
    SpellCat(s + [c], tail);
    SpellCat(s, [c]);
    SpellOne(c);
    SpellOne('d');
    KeySpelling('d');
  }

  /**
   * No keystroke is lost or reordered: spelling the converted text out as keys gives the input, spelled
   * out, with the key of ㅇ added before exactly those vowel keys that follow no consonant key and do not
   * combine with the vowel key before them.
   */
  lemma ConvertKeepsKeys(text: string)
    ensures Spell(Convert(text)) == Spell(WithSilent(None, text))
  {
    RunKeepsKeys(None, Nothing, text);
  }

  predicate OnlyKeys(text: string) {
    forall n :: 0 <= n < |text| ==> IsKey(text[n])
  }

  lemma {:induction false} SpellKeys(text: string)
    requires OnlyKeys(text)
    ensures Spell(text) == text
    decreases |text|
  {
    hide CharKeys, KeyToJamo;
    if text != "" {
      KeySpelling(text[0]);
      SpellKeys(text[1..]);
    }
  }

  lemma {:induction false} WithSilentOnlyKeys(before: Option<char>, text: string)
    requires OnlyKeys(text)
    ensures OnlyKeys(WithSilent(before, text))
    decreases |text|
  {
    hide KeyToJamo, NeedsSilent;
    if text != "" {
      assert IsKey('d') by { KeyD(); }
      WithSilentOnlyKeys(Some(text[0]), text[1..]);
    }
  }

  lemma KeyD()
    ensures IsKey('d')
  {}

  /** For a text of keys alone, spelling the output back gives the very keys, with ㅇ where it was due. */
  lemma KeystrokesKept(keys: string)
    requires OnlyKeys(keys)
    ensures Spell(Convert(keys)) == WithSilent(None, keys)
  {
    hide Convert, Spell;
    ConvertKeepsKeys(keys);
    WithSilentOnlyKeys(None, keys);
    SpellKeys(WithSilent(None, keys));
  }

  // ---------------------------------------------------------------- converting twice, in parts, and its length

  lemma HighJamo(j: char)
    requires IsInitial(j) || IsVowel(j) || IsFinal(j) || IsTense(j)
    ensures j as int >= 0x3131
  {}

  lemma HighIsNoKey(c: char)
    requires c as int >= 128
    ensures !IsKey(c)
  {
    if IsKey(c) { KeyIsPlain(c); }
  }

  lemma ComposeNoKeys(i: char, m: char, f: string)
    requires IsInitial(i) && IsVowel(m) && FinalSlot(f)
    ensures NoKeys(Compose(i, m, f)) && |Compose(i, m, f)| <= 3
  {
    hide InitialIndex, MedialIndex, FinalJamoIndex, KeyToJamo, Compose;
    ComposeInverts(i, m, f);
    HighJamo(i);
    HighJamo(m);
    if f != "" { HighJamo(f[0]); }
    var out := Compose(i, m, f);
    forall n | 0 <= n < |out| ensures !IsKey(out[n]) { HighIsNoKey(out[n]); }
  }

  lemma FlushNoKeys(p: Pending)
    requires Proper(p)
    ensures NoKeys(Flush(p))
  {
    hide InitialIndex, MedialIndex, FinalJamoIndex, KeyToJamo, Compose;
    match p
    case Nothing =>
    case Lead(i) => HighJamo(i); HighIsNoKey(i);
    case Open(i, m) => ComposeNoKeys(i, m, "");
    case Closed(i, m, f) => ComposeNoKeys(i, m, [f]);
  }

  lemma StepNoKeys(p: Pending, c: char)
    requires Proper(p)
    ensures NoKeys(Step(p, c).emitted)
  {
    hide InitialIndex, MedialIndex, FinalJamoIndex, KeyToJamo, Compose, CombinedMedial, CombinedFinal, SplitFinal;
    FlushNoKeys(p);
    if p.Open? || p.Closed? { ComposeNoKeys(p.initial, p.medial, ""); }
    if p.Closed? && SplitFinal(p.final).Some? {
      SplitFinalTable(p.final);
      ComposeNoKeys(p.initial, p.medial, [SplitFinal(p.final).value.0]);
    }
  }

  lemma {:induction false} RunNoKeys(p: Pending, text: string)
    requires Proper(p)
    ensures NoKeys(Run(p, text))
    decreases |text|
  {
    hide Proper, Step, Flush, KeyToJamo;
    if text == "" {
      FlushNoKeys(p);
    } else {
      StepProper(p, text[0]);
      StepNoKeys(p, text[0]);
      RunNoKeys(Step(p, text[0]).next, text[1..]);
    }
  }

  lemma {:induction false} PlainUnchanged(text: string)
    requires NoKeys(text)
    ensures Convert(text) == text
    decreases |text|
  {
    hide Step, KeyToJamo;
    if text != "" {
      Untouched(Nothing, text[0]);
      PlainUnchanged(text[1..]);
    }
  }

  /** The output holds no key character, so converting twice is converting once. */
  lemma ConvertTwice(text: string)
    ensures NoKeys(Convert(text)) && Convert(Convert(text)) == Convert(text)
  {
    RunNoKeys(Nothing, text);
    PlainUnchanged(Convert(text));
  }

  lemma {:induction false} RunAcross(p: Pending, a: string, c: char, b: string)
    requires !IsKey(c)
    ensures Run(p, a + [c] + b) == Run(p, a) + [c] + Convert(b)
    decreases |a|
  {
    hide Step, KeyToJamo, Flush;
    if a == "" {
      assert a + [c] + b == [c] + b;
      RunCat(p, c, b);
      Untouched(p, c);
    } else {
      var move := Step(p, a[0]);
      assert a + [c] + b == [a[0]] + (a[1..] + [c] + b);
      RunCat(p, a[0], a[1..] + [c] + b);
      RunAcross(move.next, a[1..], c, b);
      assert Run(p, a) == move.emitted + Run(move.next, a[1..]);
    }
  }

  /** Conversion distributes over concatenation at every character that is not a key. */
  lemma ConvertAcross(a: string, c: char, b: string)
    requires !IsKey(c)
    ensures Convert(a + [c] + b) == Convert(a) + [c] + Convert(b)
  {
    RunAcross(Nothing, a, c, b);
  }

  /** Half-characters the pending state may still cost. */
  function Debt(p: Pending): nat {
    match p
    case Nothing => 0
    case Lead(_) => 3
    case Open(_, _) => 3
    case Closed(_, _, _) => 6
  }

  lemma ComposeLength(i: char, m: char, f: string)
    requires |f| <= 1
    ensures |Compose(i, m, f)| == 1 || |Compose(i, m, f)| == 2 + |f|
  {}

  lemma OpenIsShort(i: char, m: char)
    requires IsInitial(i) && IsVowel(m)
    ensures |Compose(i, m, "")| == 1
  {}

  lemma StepCost(p: Pending, c: char)
    requires Proper(p)
    ensures 2 * |Step(p, c).emitted| + Debt(Step(p, c).next) <= Debt(p) + 3
    ensures 2 * |Flush(p)| <= Debt(p)
  {
    hide InitialIndex, MedialIndex, FinalJamoIndex, KeyToJamo, Compose, CombinedMedial, CombinedFinal, SplitFinal;
    if p.Open? || p.Closed? { OpenIsShort(p.initial, p.medial); }
    if p.Closed? {
      ComposeLength(p.initial, p.medial, [p.final]);
      if SplitFinal(p.final).Some? {
        SplitFinalTable(p.final);
        ComposeInverts(p.initial, p.medial, [SplitFinal(p.final).value.0]);
        SplitIsNotTense(p.final);
      }
    }
  }

  lemma SplitIsNotTense(f: char)
    requires SplitFinal(f).Some?
    ensures !IsTense(SplitFinal(f).value.0)
  {}

  lemma {:induction false} RunCost(p: Pending, text: string)
    requires Proper(p)
    ensures 2 * |Run(p, text)| <= Debt(p) + 3 * |text|
    decreases |text|
  {
    hide Proper, Step, Flush, Debt;
    if text == "" {
      StepCost(p, ' ');
    } else {
      StepProper(p, text[0]);
      StepCost(p, text[0]);
      RunCost(Step(p, text[0]).next, text[1..]);
    }
  }

  /** The output is at most half as long again as the input, and `kE` reaches that bound. */
  lemma ConvertLength(text: string)
    ensures 2 * |Convert(text)| <= 3 * |text|
    ensures Convert("kE") == "ㅇㅏㄸ"
  {
    RunCost(Nothing, text);
    var p := Open('ㅇ', 'ㅏ');
    assert "kE" == ['k'] + (['E'] + "");
    RunCat(Nothing, 'k', ['E'] + "");
    RunCat(p, 'E', "");
  }

  // ---------------------------------------------------------------- the tables against the standards

  /** The syllables are the code points from U+AC00 to U+D7A3 of section 3.12 of the Unicode Standard. */
  lemma SyllableRange(c: char)
    ensures IsSyllable(c) <==> '가' <= c <= '힣'
    ensures IsSyllable(c) <==> 0xAC00 <= c as int <= 0xD7A3
  {}

  /** The letters of the two-set layout as they stand on the rows of the keyboard, and on shifted keys. */
  lemma KeyboardRows(k: nat)
    ensures k < 10 ==> KeyToJamo("qwertyuiop"[k]) == Some("ㅂㅈㄷㄱㅅㅛㅕㅑㅐㅔ"[k])
    ensures k < 9 ==> KeyToJamo("asdfghjkl"[k]) == Some("ㅁㄴㅇㄹㅎㅗㅓㅏㅣ"[k])
    ensures k < 7 ==> KeyToJamo("zxcvbnm"[k]) == Some("ㅋㅌㅊㅍㅠㅜㅡ"[k])
    ensures k < 7 ==> KeyToJamo("QWERTOP"[k]) == Some("ㅃㅉㄸㄲㅆㅒㅖ"[k])
  {}

  /** No other character is a key: not the other capitals, no digit, no Hangul. */
  lemma OnlyTheseAreKeys(c: char)
    ensures IsKey(c) <==> 'a' <= c <= 'z' || c in ['Q', 'W', 'E', 'R', 'T', 'O', 'P']
  {}

  /** Each jamo, in the order of the Unicode Standard, composes to the syllable that stands there. */
  lemma ComposesInitials(i: nat)
    requires i < 19
    ensures Compose("ㄱㄲㄴㄷㄸㄹㅁㅂㅃㅅㅆㅇㅈㅉㅊㅋㅌㅍㅎ"[i], 'ㅏ', "") == ["가까나다따라마바빠사싸아자짜차카타파하"[i]]
  {}

  lemma ComposesMedials(m: nat)
    requires m < 21
    ensures Compose('ㅇ', "ㅏㅐㅑㅒㅓㅔㅕㅖㅗㅘㅙㅚㅛㅜㅝㅞㅟㅠㅡㅢㅣ"[m], "") == ["아애야얘어에여예오와왜외요우워웨위유으의이"[m]]
  {}

  lemma ComposesFinals(f: nat)
    requires f < 27
    ensures Compose('ㄱ', 'ㅏ', ["ㄱㄲㄳㄴㄵㄶㄷㄹㄺㄻㄼㄽㄾㄿㅀㅁㅂㅄㅅㅆㅇㅈㅊㅋㅌㅍㅎ"[f]])
            == ["각갂갃간갅갆갇갈갉갊갋갌갍갎갏감갑값갓갔강갖갗갘같갚갛"[f]]
  {}

  /** The jamo that combine, and what they combine to. */
  lemma CompoundJamo(k: nat)
    ensures k < 7 ==> CombinedMedial("ㅗㅗㅗㅜㅜㅜㅡ"[k], "ㅏㅐㅣㅓㅔㅣㅣ"[k]) == Some("ㅘㅙㅚㅝㅞㅟㅢ"[k])
    ensures k < 11 ==>
              CombinedFinal("ㄱㄴㄴㄹㄹㄹㄹㄹㄹㄹㅂ"[k], "ㅅㅈㅎㄱㅁㅂㅅㅌㅍㅎㅅ"[k]) == Some("ㄳㄵㄶㄺㄻㄼㄽㄾㄿㅀㅄ"[k])
  {}

  lemma RunKey(p: Pending, key: char, rest: string, move: Move, after: string, text: string, whole: string)
    requires Step(p, key) == move && Run(move.next, rest) == after
    requires text == [key] + rest && whole == move.emitted + after
    ensures Run(p, text) == whole
  {
    assert ([key] + rest)[1..] == rest;
  }

  lemma NameSyllables()
    ensures Compose('ㅅ', 'ㅓ', "") == "서" && Compose('ㅎ', 'ㅢ', "") == "희" && Compose('ㅇ', 'ㅕ', "ㄴ") == "연"
  {}

  lemma FirstSteps()
    ensures Step(Nothing, 't') == Move("", Lead('ㅅ')) && Step(Lead('ㅅ'), 'j') == Move("", Open('ㅅ', 'ㅓ'))
    ensures Step(Open('ㅅ', 'ㅓ'), 'g') == Move("", Closed('ㅅ', 'ㅓ', 'ㅎ'))
    ensures Step(Closed('ㅅ', 'ㅓ', 'ㅎ'), 'm') == Move("서", Open('ㅎ', 'ㅡ'))
  {
    NameSyllables();
    hide Compose;
  }

  lemma LastSteps()
    ensures Step(Open('ㅎ', 'ㅡ'), 'l') == Move("", Open('ㅎ', 'ㅢ'))
    ensures Step(Open('ㅎ', 'ㅢ'), 'd') == Move("", Closed('ㅎ', 'ㅢ', 'ㅇ'))
    ensures Step(Closed('ㅎ', 'ㅢ', 'ㅇ'), 'u') == Move("희", Open('ㅇ', 'ㅕ'))
    ensures Step(Open('ㅇ', 'ㅕ'), 's') == Move("", Closed('ㅇ', 'ㅕ', 'ㄴ'))
  {
    NameSyllables();
    hide Compose;
  }

  lemma NameEnds()
    ensures Run(Closed('ㅇ', 'ㅕ', 'ㄴ'), "") == "연"
  {
    NameSyllables();
    hide Compose;
    assert ['ㄴ'] == "ㄴ";
  }

  /** The example the source gives for the converter. */
  lemma SourceExample()
    ensures Convert("tjgmldus") == "서희연"
  {
    hide Step, Run;
    FirstSteps();
    LastSteps();
    NameEnds();
    assert "s" == ['s'] + "" && "us" == ['u'] + "s" && "dus" == ['d'] + "us" && "ldus" == ['l'] + "dus";
    assert "mldus" == ['m'] + "ldus" && "gmldus" == ['g'] + "mldus" && "jgmldus" == ['j'] + "gmldus";
    assert "tjgmldus" == ['t'] + "jgmldus" && "희" + "연" == "희연" && "서" + "희연" == "서희연";
    assert "" + "연" == "연" && "" + "희연" == "희연" && "" + "서희연" == "서희연";
    RunKey(Open('ㅇ', 'ㅕ'), 's', "", Move("", Closed('ㅇ', 'ㅕ', 'ㄴ')), "연", "s", "연");
    RunKey(Closed('ㅎ', 'ㅢ', 'ㅇ'), 'u', "s", Move("희", Open('ㅇ', 'ㅕ')), "연", "us", "희연");
    RunKey(Open('ㅎ', 'ㅢ'), 'd', "us", Move("", Closed('ㅎ', 'ㅢ', 'ㅇ')), "희연", "dus", "희연");
    RunKey(Open('ㅎ', 'ㅡ'), 'l', "dus", Move("", Open('ㅎ', 'ㅢ')), "희연", "ldus", "희연");
    RunKey(Closed('ㅅ', 'ㅓ', 'ㅎ'), 'm', "ldus", Move("서", Open('ㅎ', 'ㅡ')), "희연", "mldus", "서희연");
    RunKey(Open('ㅅ', 'ㅓ'), 'g', "mldus", Move("", Closed('ㅅ', 'ㅓ', 'ㅎ')), "서희연", "gmldus", "서희연");
    RunKey(Lead('ㅅ'), 'j', "gmldus", Move("", Open('ㅅ', 'ㅓ')), "서희연", "jgmldus", "서희연");
    RunKey(Nothing, 't', "jgmldus", Move("", Lead('ㅅ')), "서희연", "tjgmldus", "서희연");
  }

  // ---------------------------------------------------------------- searching

  lemma {:induction false} MistypedCat(a: string, b: string)
    ensures Mistyped(a + b) == Mistyped(a) + Mistyped(b)
    decreases |a|
  {
    hide SyllableKeys;
    if a == "" {
      assert a + b == b;
    } else {
      assert (a + b)[0] == a[0] && (a + b)[1..] == a[1..] + b;
      MistypedCat(a[1..], b);
    }
  }

  lemma {:induction false} KeysAreKeys(jamo: string)
    ensures forall n :: 0 <= n < |Keys(jamo)| ==> IsKey(Keys(jamo)[n])
    decreases |jamo|
  {
    hide KeyOf, KeyToJamo;
    if jamo != "" {
      KeysAreKeys(jamo[1..]);
      if KeyOf(jamo[0]).Some? { KeyOfTable(jamo[0]); }
    }
  }

  lemma SyllableEnds(c: char)
    requires IsSyllable(c)
    ensures var k := SyllableKeys(c); |k| > 0 && IsKey(k[0]) && IsKey(k[|k| - 1])
  {
    hide KeyOf, KeyToJamo, InitialIndex, MedialIndex, FinalJamoIndex, PendingOf, Parts;
    PendingOfInverts(c);
    var p := PendingOf(c);
    SpellJamo(p.initial);
    SpellJamo(p.medial);
    KeysAreKeys(Parts(p.initial));
    KeysAreKeys(Parts(p.medial));
    if p.Closed? {
      SpellJamo(p.final);
      KeysAreKeys(Parts(p.final));
    }
  }

  lemma MistypedOne(c: char)
    ensures Mistyped([c]) == if IsSyllable(c) then SyllableKeys(c) else [c]
  {
    hide SyllableKeys;
    assert [c][1..] == "";
  }

  /** The first and the last character of a mistyped text are those of the text, or keys. */
  lemma MistypedEnds(query: string)
    requires query != ""
    ensures var m := Mistyped(query);
            m != "" && (m[0] == query[0] || IsKey(m[0])) && (m[|m| - 1] == query[|query| - 1] || IsKey(m[|m| - 1]))
  {
    hide SyllableKeys, KeyToJamo, Mistyped;
    var front, last := query[..|query| - 1], query[|query| - 1];
    assert query == front + [last] == [query[0]] + query[1..];
    MistypedCat(front, [last]);
    MistypedCat([query[0]], query[1..]);
    MistypedOne(last);
    MistypedOne(query[0]);
    if IsSyllable(last) { SyllableEnds(last); }
    if IsSyllable(query[0]) { SyllableEnds(query[0]); }
  }

  lemma MistypedIsTrim(query: string, space: char -> bool)
    requires query != "" && !space(query[0]) && !space(query[|query| - 1])
    requires forall c :: space(c) ==> !IsKey(c)
    ensures Mistyped(query) != "" && Trim(Mistyped(query), space) == Mistyped(query)
  {
    hide Mistyped, KeyToJamo, Trim;
    MistypedEnds(query);
    TrimIdle(Mistyped(query), space);
  }

  lemma TrimIdle(text: string, space: char -> bool)
    requires text != "" && !space(text[0]) && !space(text[|text| - 1])
    ensures Trim(text, space) == text
  {}

  /** `core` is what is left of the input without the white space around it. */
  ghost predicate Padded(input: string, core: string, space: char -> bool) {
    (core != "" ==> !space(core[0]) && !space(core[|core| - 1])) &&
    exists front, back ::
      input == front + core + back && (forall c :: c in front ==> space(c)) && forall c :: c in back ==> space(c)
  }

  lemma TrimIs(input: string, core: string, space: char -> bool)
    requires Padded(input, core, space)
    ensures Trim(input, space) == core
  {
    var front, back :|
      input == front + core + back && (forall c :: c in front ==> space(c)) && forall c :: c in back ==> space(c);
    TrimPadding(front, core, back, space);
  }

  lemma {:induction false} TrimPadding(front: string, core: string, back: string, space: char -> bool)
    requires core != "" ==> !space(core[0]) && !space(core[|core| - 1])
    requires (forall c :: c in front ==> space(c)) && forall c :: c in back ==> space(c)
    ensures Trim(front + core + back, space) == core
    decreases |front| + |back|
  {
    var text := front + core + back;
    if front != "" {
      assert text[0] == front[0] && text[1..] == front[1..] + core + back;
      TrimPadding(front[1..], core, back, space);
    } else if back != "" {
      assert text == core + back && text[|text| - 1] == back[|back| - 1];
      if core == "" {
        assert text[1..] == "" + core + back[1..];
        TrimPadding("", core, back[1..], space);
      } else {
        assert text[0] == core[0] && text[..|text| - 1] == "" + core + back[..|back| - 1];
        TrimPadding("", core, back[..|back| - 1], space);
      }
    } else {
      assert text == core;
      if core != "" { TrimIdle(core, space); }
    }
  }

  /** The terms of the backend: the query without the white space around it, first, and what it converts to. */
  lemma ExpandsTo(query: string, core: string, space: char -> bool)
    requires Padded(query, core, space)
    ensures var terms := ExpandSearchTerms(Some(query), space);
            (forall term :: term in terms <==> core != "" && (term == core || (term == Convert(core) && term != "")))
            && (core != "" ==> |terms| > 0 && terms[0] == core)
            && forall i, j :: 0 <= i < j < |terms| ==> terms[i] != terms[j]
    ensures ExpandSearchTerms(None, space) == []
  {
    hide Convert;
    TrimIs(query, core, space);
  }

  ghost predicate Within(part: string, text: string) {
    exists a, b :: text == a + part + b
  }

  lemma IncludesIffWithin(text: string, part: string)
    ensures Includes(text, part) <==> Within(part, text)
  {
    if k :| 0 <= k <= |text| && OccursAt(text, part, k) {
      assert text == text[..k] + part + text[k + |part|..];
    }
    if a, b :| text == a + part + b {
      assert text[|a|..|a| + |part|] == part;
      assert OccursAt(text, part, |a|);
    }
  }

  /** The value contains, in lower case, the text or what it converts to. */
  ghost predicate Answers(core: string, value: string, casing: Casing) {
    var text := Lower(value, casing);
    Within(Lower(core, casing), text) || Within(Lower(Convert(core), casing), text)
  }

  /**
   * What the frontend's search finds, exactly: everything if the input is blank, and otherwise the records with a
   * value that contains, in lower case, the input or what it converts to.
   */
  lemma SearchFinds(input: string, core: string, space: char -> bool, casing: Casing, values: seq<Option<string>>)
    requires Padded(input, core, space)
    ensures MatchesSearchTerms(values, BuildSearchTerms(input, space, casing), casing) <==>
            core == "" || exists value :: Some(value) in values && value != "" && Answers(core, value, casing)
  {
    hide Convert, Lower, Trim, Within, Includes;
    TrimIs(input, core, space);
    var terms := BuildSearchTerms(input, space, casing);
    if core != "" {
      var typed, meant := Lower(core, casing), Lower(Convert(core), casing);
      forall t, v | 0 <= t < |terms| && 0 <= v < |values| && values[v].Some?
        ensures Includes(Lower(values[v].value, casing), terms[t]) <==> Within(terms[t], Lower(values[v].value, casing))
        ensures terms[t] == typed || terms[t] == meant
      {
        IncludesIffWithin(Lower(values[v].value, casing), terms[t]);
      }
      assert terms[0] == typed && terms[|terms| - 1] == meant;
      if value :| Some(value) in values && value != "" && Answers(core, value, casing) {
        var v :| 0 <= v < |values| && values[v] == Some(value);
        var t := if Within(typed, Lower(value, casing)) then 0 else |terms| - 1;
        assert Includes(Lower(values[v].value, casing), terms[t]);
      }
      if t, v :| 0 <= t < |terms| && 0 <= v < |values| && values[v].Some? && values[v].value != ""
                 && Includes(Lower(values[v].value, casing), terms[t]) {
        assert Some(values[v].value) in values;
      }
    }
  }

  /** The backend searches for the text that was meant as well as for what was typed. */
  lemma ExpandFindsMistyped(query: string, space: char -> bool)
    requires query != "" && NoKeys(query) && !space(query[0]) && !space(query[|query| - 1])
    requires forall c :: space(c) ==> !IsKey(c)
    ensures var terms := ExpandSearchTerms(Some(Mistyped(query)), space);
            query in terms && terms[0] == Mistyped(query) && |terms| == (if Mistyped(query) == query then 1 else 2)
  {
    hide Convert, Mistyped, KeyToJamo;
    MistypedIsTrim(query, space);
    ConvertMistyped(query);
    var terms := ExpandSearchTerms(Some(Mistyped(query)), space);
    assert query == terms[|terms| - 1];
  }

  /** A record whose value contains the searched text in the same lower case matches, if that is one of the terms. */
  lemma ContainedTermMatches(terms: seq<string>, t: nat, query: string, casing: Casing,
      values: seq<Option<string>>, v: nat, before: string, after: string)
    requires t < |terms| && terms[t] == Lower(query, casing) && query != ""
    requires v < |values| && values[v] == Some(before + query + after) && Stable(before, query, after, casing)
    ensures MatchesSearchTerms(values, terms, casing)
  {
    hide Stable, Lower, LowerWithin;
    LowerFindsPartIff(before, query, after, casing);
    var k := |LowerWithin("", before, query + after, casing)|;
    assert OccursAt(Lower(values[v].value, casing), terms[t], k);
    assert Includes(Lower(values[v].value, casing), terms[t]);
  }

  /** A record whose value contains `query` matches the search for it, if the query's lower case is the same there. */
  lemma SearchMatches(query: string,
      space: char -> bool, casing: Casing, values: seq<Option<string>>, v: nat, before: string, after: string)
    requires query != "" && !space(query[0]) && !space(query[|query| - 1])
    requires v < |values| && values[v] == Some(before + query + after) && Stable(before, query, after, casing)
    ensures MatchesSearchTerms(values, BuildSearchTerms(query, space, casing), casing)
  {
    hide Convert, Stable, Lower, Trim, MatchesSearchTerms;
    TrimIdle(query, space);
    ContainedTermMatches(BuildSearchTerms(query, space, casing), 0, query, casing, values, v, before, after);
  }

  /** So it does when the query was typed on two-set keys with the input method off. */
  lemma MistypedSearchMatches(query: string,
      space: char -> bool, casing: Casing, values: seq<Option<string>>, v: nat, before: string, after: string)
    requires query != "" && NoKeys(query) && !space(query[0]) && !space(query[|query| - 1])
    requires forall c :: space(c) ==> !IsKey(c)
    requires v < |values| && values[v] == Some(before + query + after) && Stable(before, query, after, casing)
    ensures MatchesSearchTerms(values, BuildSearchTerms(Mistyped(query), space, casing), casing)
  {
    hide Convert, Mistyped, KeyToJamo, Stable, Lower, MatchesSearchTerms;
    MistypedIsTrim(query, space);
    ConvertMistyped(query);
    var terms := BuildSearchTerms(Mistyped(query), space, casing);
    ContainedTermMatches(terms, |terms| - 1, query, casing, values, v, before, after);
  }

  /**
   * Only a capital sigma can be in the way: any other query, Latin, Hangul or mixed, finds every record that
   * contains it, and if it has no key letters also when typed with the input method off.
   */
  lemma SearchMatchesWithoutSigma(query: string,
      space: char -> bool, casing: Casing, values: seq<Option<string>>, v: nat, before: string, after: string)
    requires query != "" && !space(query[0]) && !space(query[|query| - 1]) && SIGMA !in query
    requires v < |values| && values[v] == Some(before + query + after)
    ensures MatchesSearchTerms(values, BuildSearchTerms(query, space, casing), casing)
    ensures NoKeys(query) && (forall c :: space(c) ==> !IsKey(c)) ==>
              MatchesSearchTerms(values, BuildSearchTerms(Mistyped(query), space, casing), casing)
  {
    hide BuildSearchTerms, MatchesSearchTerms, Mistyped, NoKeys, IsKey;
    NoSigmas(before, "", query, after, "", casing);
    SearchMatches(query, space, casing, values, v, before, after);
    if NoKeys(query) && forall c :: space(c) ==> !IsKey(c) {
      MistypedSearchMatches(query, space, casing, values, v, before, after);
    }
  }

  /** With a sigma the search can miss: the query ends in one, the record goes on after it. */
  lemma SigmaSearchMisses(space: char -> bool, casing: Casing)
    requires !space('Α') && !space(SIGMA) && casing.cased('Α') && casing.cased('Β')
    requires casing.mapping('Α') == "α" && casing.mapping('Β') == "β"
    ensures var query, after := "ΑΣ", "Β";
            Mistyped(query) == query && !Stable("", query, after, casing) &&
            !MatchesSearchTerms([Some(query + after)], BuildSearchTerms(query, space, casing), casing)
  {
    hide Convert, KeyToJamo, Stable, Lower, Mistyped, Trim, IsSyllable, Includes;
    var query, after := "ΑΣ", "Β";
    SigmaLast('Α', casing);
    SigmaInside('Α', 'Β', casing);
    SigmaMoves('Α', 'Β', casing);
    assert query == ['Α', SIGMA] && query + after == ['Α', SIGMA, 'Β'];
    GreekIsPlain();
    ConvertMistyped(query);
    TrimIdle(query, space);
    assert "α" + "ς" == "ας" && "α" + "σ" + "β" == "ασβ";
    assert BuildSearchTerms(query, space, casing) == ["ας"];
    assert !Includes("ασβ", "ας") by { Misses(); }
    assert Lower(query + after, casing) == "ασβ";
  }

  lemma GreekIsPlain()
    ensures NoKeys("ΑΣ") && Mistyped("ΑΣ") == "ΑΣ"
  {
    assert "ΑΣ"[1..] == "Σ" && "Σ"[1..] == "";
  }

  lemma Misses()
    ensures !Includes("ασβ", "ας")
  {
    forall k | 0 <= k <= 3 ensures !OccursAt("ασβ", "ας", k) {
      if k <= 1 { assert "ασβ"[k..k + 2][1 - k] == 'σ'; }
    }
  }
}
