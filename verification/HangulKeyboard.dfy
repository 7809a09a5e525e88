/**
 The two-set (dubeolsik) Hangul keyboard converter of
 backend/app/core/hangul_keyboard.py and frontend/src/utils/hangulKeyboard.ts:
 the jamo tables, the converter as the loop the source runs, and the function that specifies it.
 */
module HangulKeyboard {
  import opened LowerCase
  import opened Options

  // ---------------------------------------------------------------- tables

  const HANGUL_BASE := 0xAC00
  const SYLLABLES := 11172

  /** KEY_TO_JAMO: the jamo printed on a key of the two-set layout. */
  function KeyToJamo(key: char): Option<char> {
    match key
    case 'r' => Some('ㄱ') case 'R' => Some('ㄲ') case 's' => Some('ㄴ') case 'e' => Some('ㄷ')
    case 'E' => Some('ㄸ') case 'f' => Some('ㄹ') case 'a' => Some('ㅁ') case 'q' => Some('ㅂ')
    case 'Q' => Some('ㅃ') case 't' => Some('ㅅ') case 'T' => Some('ㅆ') case 'd' => Some('ㅇ')
    case 'w' => Some('ㅈ') case 'W' => Some('ㅉ') case 'c' => Some('ㅊ') case 'z' => Some('ㅋ')
    case 'x' => Some('ㅌ') case 'v' => Some('ㅍ') case 'g' => Some('ㅎ')
    case 'k' => Some('ㅏ') case 'o' => Some('ㅐ') case 'i' => Some('ㅑ') case 'O' => Some('ㅒ')
    case 'j' => Some('ㅓ') case 'p' => Some('ㅔ') case 'u' => Some('ㅕ') case 'P' => Some('ㅖ')
    case 'h' => Some('ㅗ') case 'y' => Some('ㅛ') case 'n' => Some('ㅜ') case 'b' => Some('ㅠ')
    case 'm' => Some('ㅡ') case 'l' => Some('ㅣ')
    case _ => None
  }

  predicate IsKey(c: char) {
    KeyToJamo(c).Some?
  }

  /** INITIAL_INDEX */
  function InitialIndex(jamo: char): Option<nat> {
    match jamo
    case 'ㄱ' => Some(0) case 'ㄲ' => Some(1) case 'ㄴ' => Some(2) case 'ㄷ' => Some(3) case 'ㄸ' => Some(4)
    case 'ㄹ' => Some(5) case 'ㅁ' => Some(6) case 'ㅂ' => Some(7) case 'ㅃ' => Some(8) case 'ㅅ' => Some(9)
    case 'ㅆ' => Some(10) case 'ㅇ' => Some(11) case 'ㅈ' => Some(12) case 'ㅉ' => Some(13) case 'ㅊ' => Some(14)
    case 'ㅋ' => Some(15) case 'ㅌ' => Some(16) case 'ㅍ' => Some(17) case 'ㅎ' => Some(18)
    case _ => None
  }

  /** MEDIAL_INDEX */
  function MedialIndex(jamo: char): Option<nat> {
    match jamo
    case 'ㅏ' => Some(0) case 'ㅐ' => Some(1) case 'ㅑ' => Some(2) case 'ㅒ' => Some(3) case 'ㅓ' => Some(4)
    case 'ㅔ' => Some(5) case 'ㅕ' => Some(6) case 'ㅖ' => Some(7) case 'ㅗ' => Some(8) case 'ㅘ' => Some(9)
    case 'ㅙ' => Some(10) case 'ㅚ' => Some(11) case 'ㅛ' => Some(12) case 'ㅜ' => Some(13) case 'ㅝ' => Some(14)
    case 'ㅞ' => Some(15) case 'ㅟ' => Some(16) case 'ㅠ' => Some(17) case 'ㅡ' => Some(18) case 'ㅢ' => Some(19)
    case 'ㅣ' => Some(20)
    case _ => None
  }

  predicate IsVowel(jamo: char) {
    MedialIndex(jamo).Some?
  }

  function FinalJamoIndex(jamo: char): Option<nat> {
    match jamo
    case 'ㄱ' => Some(1) case 'ㄲ' => Some(2) case 'ㄳ' => Some(3) case 'ㄴ' => Some(4) case 'ㄵ' => Some(5)
    case 'ㄶ' => Some(6) case 'ㄷ' => Some(7) case 'ㄹ' => Some(8) case 'ㄺ' => Some(9) case 'ㄻ' => Some(10)
    case 'ㄼ' => Some(11) case 'ㄽ' => Some(12) case 'ㄾ' => Some(13) case 'ㄿ' => Some(14) case 'ㅀ' => Some(15)
    case 'ㅁ' => Some(16) case 'ㅂ' => Some(17) case 'ㅄ' => Some(18) case 'ㅅ' => Some(19) case 'ㅆ' => Some(20)
    case 'ㅇ' => Some(21) case 'ㅈ' => Some(22) case 'ㅊ' => Some(23) case 'ㅋ' => Some(24) case 'ㅌ' => Some(25)
    case 'ㅍ' => Some(26) case 'ㅎ' => Some(27)
    case _ => None
  }

  /** FINAL_INDEX, whose first entry is the empty final. */
  function FinalIndex(final: string): Option<nat> {
    if final == "" then Some(0)
    else if |final| == 1 then FinalJamoIndex(final[0])
    else None
  }

  /** COMBINED_MEDIAL */
  function CombinedMedial(first: char, second: char): Option<char> {
    match (first, second)
    case ('ㅗ', 'ㅏ') => Some('ㅘ') case ('ㅗ', 'ㅐ') => Some('ㅙ') case ('ㅗ', 'ㅣ') => Some('ㅚ')
    case ('ㅜ', 'ㅓ') => Some('ㅝ') case ('ㅜ', 'ㅔ') => Some('ㅞ') case ('ㅜ', 'ㅣ') => Some('ㅟ')
    case ('ㅡ', 'ㅣ') => Some('ㅢ')
    case _ => None
  }

  /** COMBINED_FINAL */
  function CombinedFinal(first: char, second: char): Option<char> {
    match (first, second)
    case ('ㄱ', 'ㅅ') => Some('ㄳ') case ('ㄴ', 'ㅈ') => Some('ㄵ') case ('ㄴ', 'ㅎ') => Some('ㄶ')
    case ('ㄹ', 'ㄱ') => Some('ㄺ') case ('ㄹ', 'ㅁ') => Some('ㄻ') case ('ㄹ', 'ㅂ') => Some('ㄼ')
    case ('ㄹ', 'ㅅ') => Some('ㄽ') case ('ㄹ', 'ㅌ') => Some('ㄾ') case ('ㄹ', 'ㅍ') => Some('ㄿ')
    case ('ㄹ', 'ㅎ') => Some('ㅀ') case ('ㅂ', 'ㅅ') => Some('ㅄ')
    case _ => None
  }

  /** SPLIT_FINAL */
  function SplitFinal(final: char): Option<(char, char)> {
    match final
    case 'ㄳ' => Some(('ㄱ', 'ㅅ')) case 'ㄵ' => Some(('ㄴ', 'ㅈ')) case 'ㄶ' => Some(('ㄴ', 'ㅎ'))
    case 'ㄺ' => Some(('ㄹ', 'ㄱ')) case 'ㄻ' => Some(('ㄹ', 'ㅁ')) case 'ㄼ' => Some(('ㄹ', 'ㅂ'))
    case 'ㄽ' => Some(('ㄹ', 'ㅅ')) case 'ㄾ' => Some(('ㄹ', 'ㅌ')) case 'ㄿ' => Some(('ㄹ', 'ㅍ'))
    case 'ㅀ' => Some(('ㄹ', 'ㅎ')) case 'ㅄ' => Some(('ㅂ', 'ㅅ'))
    case _ => None
  }

  // ---------------------------------------------------------------- the converter

  /** `_compose`: one precomposed syllable, or the jamo side by side when one of them has no index. */
  function Compose(initial: char, medial: char, final: string): string {
    var ii, mi, fi := InitialIndex(initial), MedialIndex(medial), FinalIndex(final);
    if ii.None? || mi.None? || fi.None? then [initial, medial] + final
    else [SyllableAt(ii.value, mi.value, fi.value)]
  }

  /** Hangul syllable composition, section 3.12 of the Unicode Standard. */
  function SyllableAt(initial: nat, medial: nat, final: nat): char
    requires initial < 19 && medial < 21 && final < 28
  {
    (HANGUL_BASE + (initial * 21 + medial) * 28 + final) as char
  }

  /** The four shapes the three slots of the source can take; see `EnglishKeyboardToHangul`. */
  datatype Pending =
    | Nothing
    | Lead(initial: char)
    | Open(initial: char, medial: char)
    | Closed(initial: char, medial: char, final: char)

  /** The text a flush emits. */
  function Flush(p: Pending): string {
    match p
    case Nothing => ""
    case Lead(i) => [i]
    case Open(i, m) => Compose(i, m, "")
    case Closed(i, m, f) => Compose(i, m, [f])
  }

  datatype Move = Move(emitted: string, next: Pending)

  function VowelMove(p: Pending, jamo: char): Move {
    match p
    case Nothing => Move("", Open('ㅇ', jamo))
    case Lead(i) => Move("", Open(i, jamo))
    case Open(i, m) =>
      (match CombinedMedial(m, jamo)
       case Some(both) => Move("", Open(i, both))
       case None => Move(Compose(i, m, ""), Open('ㅇ', jamo)))
    case Closed(i, m, f) =>
      match SplitFinal(f)
      case Some(parts) => Move(Compose(i, m, [parts.0]), Open(parts.1, jamo))
      case None => Move(Compose(i, m, ""), Open(f, jamo))
  }

  function ConsonantMove(p: Pending, jamo: char): Move {
    match p
    case Nothing => Move("", Lead(jamo))
    case Lead(i) => Move([i], Lead(jamo))
    case Open(i, m) => Move("", Closed(i, m, jamo))
    case Closed(i, m, f) =>
      match CombinedFinal(f, jamo)
      case Some(both) => Move("", Closed(i, m, both))
      case None => Move(Compose(i, m, [f]), Lead(jamo))
  }

  function Step(p: Pending, c: char): Move {
    match KeyToJamo(c)
    case None => Move(Flush(p) + [c], Nothing)
    case Some(jamo) => if IsVowel(jamo) then VowelMove(p, jamo) else ConsonantMove(p, jamo)
  }

  /** Everything still emitted when `text` is read with `p` pending. */
  function Run(p: Pending, text: string): string
    decreases |text|
  {
    if text == "" then Flush(p)
    else
      var move := Step(p, text[0]);
      move.emitted + Run(move.next, text[1..])
  }

  function Convert(text: string): string {
    Run(Nothing, text)
  }

  /** How the three string slots of the source represent a pending state. */
  ghost predicate Represents(p: Pending, initial: string, medial: string, final: string) {
    match p
    case Nothing => initial == medial == final == ""
    case Lead(i) => initial == [i] && medial == final == ""
    case Open(i, m) => initial == [i] && medial == [m] && final == ""
    case Closed(i, m, f) => initial == [i] && medial == [m] && final == [f]
  }

  /** `_compose` on string slots: an empty slot has no index unless it is the final. */
  function ComposeSlots(initial: string, medial: string, final: string): string {
    if |initial| == 1 && |medial| == 1 then Compose(initial[0], medial[0], final)
    else initial + medial + final
  }

  function FlushSlots(initial: string, medial: string, final: string): string {
    if initial != "" && medial != "" then ComposeSlots(initial, medial, final)
    else initial + medial + final
  }

  /** The vowel branch of the loop body: what it appends, and the three slots after it. */
  method PressVowel(initial: string, medial: string, final: string, jamo: char, ghost p: Pending)
    returns (emitted: string, initial': string, medial': string, final': string)
    requires Represents(p, initial, medial, final)
    ensures emitted == VowelMove(p, jamo).emitted
    ensures Represents(VowelMove(p, jamo).next, initial', medial', final')
  {
    emitted, initial', medial', final' := "", initial, medial, final;
    if initial == "" {
      initial', medial' := "ㅇ", [jamo];
    } else if medial == "" {
      medial' := [jamo];
    } else if final != "" {
      var split := SplitFinal(final[0]);
      if split.Some? {
        emitted := ComposeSlots(initial, medial, [split.value.0]);
        initial' := [split.value.1];
      } else {
        emitted := ComposeSlots(initial, medial, "");
        initial' := final;
      }
      medial', final' := [jamo], "";
    } else {
      var combined := CombinedMedial(medial[0], jamo);
      if combined.Some? {
        medial' := [combined.value];
      } else {
        emitted := ComposeSlots(initial, medial, "");
        initial', medial' := "ㅇ", [jamo];
      }
    }
  }

  /** The consonant branch of the loop body. */
  method PressConsonant(initial: string, medial: string, final: string, jamo: char, ghost p: Pending)
    returns (emitted: string, initial': string, medial': string, final': string)
    requires Represents(p, initial, medial, final)
    ensures emitted == ConsonantMove(p, jamo).emitted
    ensures Represents(ConsonantMove(p, jamo).next, initial', medial', final')
  {
    emitted, initial', medial', final' := "", initial, medial, final;
    if initial == "" {
      initial' := [jamo];
    } else if medial == "" {
      emitted := FlushSlots(initial, medial, final);
      initial', medial', final' := [jamo], "", "";
    } else if final == "" {
      final' := [jamo];
    } else {
      var combined := CombinedFinal(final[0], jamo);
      if combined.Some? {
        final' := [combined.value];
      } else {
        emitted := ComposeSlots(initial, medial, final);
        initial', medial', final' := [jamo], "", "";
      }
    }
  }

  /** The loop body: pass a character that is no key through, or press the key. */
  method ReadChar(initial: string, medial: string, final: string, c: char, ghost p: Pending)
    returns (emitted: string, initial': string, medial': string, final': string)
    requires Represents(p, initial, medial, final)
    ensures emitted == Step(p, c).emitted
    ensures Represents(Step(p, c).next, initial', medial', final')
  {
    hide KeyToJamo, MedialIndex, Compose, VowelMove, ConsonantMove;
    var key := KeyToJamo(c);
    if key.None? {
      emitted := FlushSlots(initial, medial, final) + [c];
      initial', medial', final' := "", "", "";
    } else if IsVowel(key.value) {
      emitted, initial', medial', final' := PressVowel(initial, medial, final, key.value, p);
    } else {
      emitted, initial', medial', final' := PressConsonant(initial, medial, final, key.value, p);
    }
  }

  lemma Regroup(a: string, b: string, c: string)
    ensures a + (b + c) == (a + b) + c
  {}

  /** `english_keyboard_to_hangul`: the loop over three string slots that the source runs. */
  method EnglishKeyboardToHangul(text: string) returns (result: string)
    ensures result == Convert(text)
  {
    hide Step, Compose;
    result := "";
    var initial, medial, final := "", "", "";
    ghost var p := Nothing;
    for n := 0 to |text|
      invariant Represents(p, initial, medial, final)
      invariant result + Run(p, text[n..]) == Convert(text)
    {
      ghost var next := Step(p, text[n]).next;
      assert text[n..][1..] == text[n + 1..];
      var emitted;
      emitted, initial, medial, final := ReadChar(initial, medial, final, text[n], p);
      Regroup(result, emitted, Run(next, text[n + 1..]));
      p, result := next, result + emitted;
    }
    result := result + FlushSlots(initial, medial, final);
  }

  // ---------------------------------------------------------------- spelling

  predicate IsSyllable(c: char) {
    HANGUL_BASE <= c as int < HANGUL_BASE + SYLLABLES
  }

  /** INITIALS, read by index. */
  function InitialAt(index: nat): char
    requires index < 19
  {
    "ㄱㄲㄴㄷㄸㄹㅁㅂㅃㅅㅆㅇㅈㅉㅊㅋㅌㅍㅎ"[index]
  }

  /** MEDIALS, read by index. */
  function MedialAt(index: nat): char
    requires index < 21
  {
    "ㅏㅐㅑㅒㅓㅔㅕㅖㅗㅘㅙㅚㅛㅜㅝㅞㅟㅠㅡㅢㅣ"[index]
  }

  /** FINALS, read by index; index 0 is the empty final. */
  function FinalAt(index: nat): char
    requires 0 < index < 28
  {
    "_ㄱㄲㄳㄴㄵㄶㄷㄹㄺㄻㄼㄽㄾㄿㅀㅁㅂㅄㅅㅆㅇㅈㅊㅋㅌㅍㅎ"[index]
  }

  /** The key a single jamo is printed on. */
  function KeyOf(jamo: char): Option<char> {
    match jamo
    case 'ㄱ' => Some('r') case 'ㄲ' => Some('R') case 'ㄴ' => Some('s') case 'ㄷ' => Some('e')
    case 'ㄸ' => Some('E') case 'ㄹ' => Some('f') case 'ㅁ' => Some('a') case 'ㅂ' => Some('q')
    case 'ㅃ' => Some('Q') case 'ㅅ' => Some('t') case 'ㅆ' => Some('T') case 'ㅇ' => Some('d')
    case 'ㅈ' => Some('w') case 'ㅉ' => Some('W') case 'ㅊ' => Some('c') case 'ㅋ' => Some('z')
    case 'ㅌ' => Some('x') case 'ㅍ' => Some('v') case 'ㅎ' => Some('g')
    case 'ㅏ' => Some('k') case 'ㅐ' => Some('o') case 'ㅑ' => Some('i') case 'ㅒ' => Some('O')
    case 'ㅓ' => Some('j') case 'ㅔ' => Some('p') case 'ㅕ' => Some('u') case 'ㅖ' => Some('P')
    case 'ㅗ' => Some('h') case 'ㅛ' => Some('y') case 'ㅜ' => Some('n') case 'ㅠ' => Some('b')
    case 'ㅡ' => Some('m') case 'ㅣ' => Some('l')
    case _ => None
  }

  /** The two vowels a compound medial is typed with. */
  function SplitMedial(medial: char): Option<(char, char)> {
    match medial
    case 'ㅘ' => Some(('ㅗ', 'ㅏ')) case 'ㅙ' => Some(('ㅗ', 'ㅐ')) case 'ㅚ' => Some(('ㅗ', 'ㅣ'))
    case 'ㅝ' => Some(('ㅜ', 'ㅓ')) case 'ㅞ' => Some(('ㅜ', 'ㅔ')) case 'ㅟ' => Some(('ㅜ', 'ㅣ'))
    case 'ㅢ' => Some(('ㅡ', 'ㅣ'))
    case _ => None
  }

  /** The single jamo a jamo is typed with; empty for what is not a jamo. */
  function Parts(jamo: char): string {
    if KeyOf(jamo).Some? then [jamo]
    else
      match SplitFinal(jamo)
      case Some(parts) => [parts.0, parts.1]
      case None =>
        match SplitMedial(jamo)
        case Some(parts) => [parts.0, parts.1]
        case None => ""
  }

  /** The keys of a string of single jamo. */
  function Keys(jamo: string): string {
    if jamo == "" then ""
    else (match KeyOf(jamo[0]) case Some(key) => [key] case None => "") + Keys(jamo[1..])
  }

  /** The keys one presses for a jamo, compound jamo by their parts; empty for what is not a jamo. */
  function JamoKeys(jamo: char): string {
    Keys(Parts(jamo))
  }

  /** The pending state in which a syllable is complete but not yet emitted. */
  function PendingOf(syllable: char): Pending
    requires IsSyllable(syllable)
  {
    var index := syllable as int - HANGUL_BASE;
    var i, m, f := InitialAt(index / 588), MedialAt(index % 588 / 28), index % 28;
    if f == 0 then Open(i, m) else Closed(i, m, FinalAt(f))
  }

  /** The keys of everything pending, in the order in which they were pressed. */
  function PendingKeys(p: Pending): string {
    match p
    case Nothing => ""
    case Lead(i) => JamoKeys(i)
    case Open(i, m) => JamoKeys(i) + JamoKeys(m)
    case Closed(i, m, f) => JamoKeys(i) + JamoKeys(m) + JamoKeys(f)
  }

  /** The two-set spelling of a syllable. */
  function SyllableKeys(syllable: char): string
    requires IsSyllable(syllable)
  {
    PendingKeys(PendingOf(syllable))
  }

  /** What a typist presses for `text` with the input method off: syllables as keys, the rest as it is. */
  function Mistyped(text: string): string {
    if text == "" then ""
    else (if IsSyllable(text[0]) then SyllableKeys(text[0]) else [text[0]]) + Mistyped(text[1..])
  }

  /** The keys of one character: of a syllable, of a single jamo, or the character itself. */
  function CharKeys(c: char): string {
    if IsSyllable(c) then SyllableKeys(c)
    else if JamoKeys(c) != "" then JamoKeys(c)
    else [c]
  }

  /** Spells a text out as keys, single jamo included. */
  function Spell(text: string): string {
    if text == "" then "" else CharKeys(text[0]) + Spell(text[1..])
  }

  predicate NoKeys(text: string) {
    forall n :: 0 <= n < |text| ==> !IsKey(text[n])
  }

  // ---------------------------------------------------------------- search terms

  /** `str.strip` / `String.trim`, over the white space of the host language. */
  function Trim(text: string, space: char -> bool): string
    decreases |text|
  {
    if text == "" then ""
    else if space(text[0]) then Trim(text[1..], space)
    else if space(text[|text| - 1]) then Trim(text[..|text| - 1], space)
    else text
  }

  /** `expand_search_terms` */
  function ExpandSearchTerms(query: Option<string>, space: char -> bool): seq<string> {
    var normalized := Trim(match query case Some(q) => q case None => "", space);
    if normalized == "" then []
    else
      var converted := Convert(normalized);
      if converted != "" && converted != normalized then [normalized, converted] else [normalized]
  }

  /** `buildSearchTerms` */
  function BuildSearchTerms(input: string, space: char -> bool, casing: Casing): seq<string> {
    var raw := Trim(input, space);
    if raw == "" then []
    else
      var first, second := Lower(raw, casing), Lower(Convert(raw), casing);
      if first == second then [first] else [first, second]
  }

  predicate OccursAt(text: string, part: string, k: nat) {
    k + |part| <= |text| && text[k..k + |part|] == part
  }

  predicate Includes(text: string, part: string) {
    exists k :: 0 <= k <= |text| && OccursAt(text, part, k)
  }

  /** `matchesSearchTerms` */
  predicate MatchesSearchTerms(values: seq<Option<string>>, terms: seq<string>, casing: Casing) {
    |terms| == 0 ||
    exists t, v :: 0 <= t < |terms| && 0 <= v < |values| &&
      values[v].Some? && values[v].value != "" && Includes(Lower(values[v].value, casing), terms[t])
  }
}
