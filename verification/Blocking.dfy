/**
 Pairwise similarity with name-token blocking: the inverted-index path against the all-pairs path,
 and the one-pass key scanner against its declarative meaning.
 */
module Blocking {
  import opened Lists
  import opened Vectors

  const TOKEN_PREFIX_LEN := 3

  /** The platform's character classes: what is alphanumeric, and how one character is lower-cased. */
  datatype Casing = Casing(alnum: char -> bool, lower: char -> string)

  // ---------------------------------------------------------------------
  // Blocking keys
  // ---------------------------------------------------------------------

  function Lowered(casing: Casing, word: string): seq<string> {
    seq(|word|, k requires 0 <= k < |word| => casing.lower(word[k]))
  }

  function Concat(parts: seq<string>): string {
    if parts == [] then "" else Concat(parts[..|parts| - 1]) + parts[|parts| - 1]
  }

  /** The first three characters of a word, each lower-cased. */
  function KeyOf(parts: seq<string>): string {
    Concat(if |parts| <= TOKEN_PREFIX_LEN then parts else parts[..TOKEN_PREFIX_LEN])
  }

  /** name[lo..hi] is a maximal run of alphanumeric characters. */
  ghost predicate IsToken(casing: Casing, name: string, lo: int, hi: int) {
    0 <= lo < hi <= |name|
    && (forall k | lo <= k < hi :: casing.alnum(name[k]))
    && (lo == 0 || !casing.alnum(name[lo - 1]))
    && (hi == |name| || !casing.alnum(name[hi]))
  }

  /** `key` comes from a token of at least two characters that ends before `limit`. */
  ghost predicate KeyBefore(casing: Casing, name: string, limit: int, key: string) {
    exists lo, hi :: hi < limit && hi - lo >= 2 && IsToken(casing, name, lo, hi) && key == KeyOf(Lowered(casing, name[lo..hi]))
  }

  ghost predicate IsKey(casing: Casing, name: string, key: string) {
    KeyBefore(casing, name, |name| + 1, key)
  }

  /** The run that is still open at position i: empty, or maximal to the left. */
  ghost predicate OpenRun(casing: Casing, name: string, start: int, i: int) {
    0 <= start <= i <= |name|
    && (forall k | start <= k < i :: casing.alnum(name[k]))
    && (start == 0 || !casing.alnum(name[start - 1]))
  }

  lemma OneTokenEndsHere(casing: Casing, name: string, start: int, i: int, lo: int)
    requires OpenRun(casing, name, start, i) && IsToken(casing, name, lo, i)
    ensures lo == start
  {
    assert 0 < start ==> !casing.alnum(name[start - 1]);
    assert 0 < lo ==> !casing.alnum(name[lo - 1]);
  }

  /** Closing the open run at i adds its key, if it is long enough, and nothing else. */
  lemma CloseRun(casing: Casing, name: string, start: int, i: int, key: string)
    requires OpenRun(casing, name, start, i) && (i == |name| || !casing.alnum(name[i]))
    ensures KeyBefore(casing, name, i + 1, key)
       <==> KeyBefore(casing, name, i, key) || (i - start >= 2 && key == KeyOf(Lowered(casing, name[start..i])))
  {
    if KeyBefore(casing, name, i + 1, key) {
      var lo, hi :| hi < i + 1 && hi - lo >= 2 && IsToken(casing, name, lo, hi) && key == KeyOf(Lowered(casing, name[lo..hi]));
      if hi == i {
        OneTokenEndsHere(casing, name, start, i, lo);
      }
    }
    if i - start >= 2 {
      assert IsToken(casing, name, start, i);
    }
  }

  lemma NoTokenEndsInside(casing: Casing, name: string, i: int, key: string)
    requires 0 <= i < |name| && casing.alnum(name[i])
    ensures KeyBefore(casing, name, i + 1, key) <==> KeyBefore(casing, name, i, key)
  {
    if KeyBefore(casing, name, i + 1, key) {
      var lo, hi :| hi < i + 1 && hi - lo >= 2 && IsToken(casing, name, lo, hi) && key == KeyOf(Lowered(casing, name[lo..hi]));
      assert hi != i;
    }
  }

  /** The scanner between two characters: the open run, each character lower-cased, and the keys so far. */
  datatype Scanner = Scanner(run: seq<string>, keys: set<string>)

  const START := Scanner([], {})

  function RunKeys(run: seq<string>): set<string> {
    if |run| >= 2 then {KeyOf(run)} else {}
  }

  function Advance(casing: Casing, s: Scanner, c: char): Scanner {
    if casing.alnum(c) then Scanner(s.run + [casing.lower(c)], s.keys) else Scanner([], s.keys + RunKeys(s.run))
  }

  function AdvanceAll(casing: Casing, s: Scanner, text: string): Scanner {
    if text == [] then s else Advance(casing, AdvanceAll(casing, s, text[..|text| - 1]), text[|text| - 1])
  }

  function Closed(s: Scanner): set<string> {
    s.keys + RunKeys(s.run)
  }

  function Keys(casing: Casing, name: string): set<string> {
    Closed(AdvanceAll(casing, START, name))
  }

  lemma NothingBefore(casing: Casing, name: string)
    ensures forall key :: !KeyBefore(casing, name, 0, key)
  {
  }

  /** After i characters: the run open since `start`, and exactly the keys of the tokens that have ended. */
  ghost predicate Scanned(casing: Casing, name: string, start: int, i: int, s: Scanner) {
    OpenRun(casing, name, start, i) && s.run == Lowered(casing, name[start..i])
    && forall key :: key in s.keys <==> KeyBefore(casing, name, i, key)
  }

  lemma ScanOne(casing: Casing, name: string, start: int, i: int, s: Scanner)
    requires 0 <= i < |name| && Scanned(casing, name, start, i, s)
    ensures Scanned(casing, name, if casing.alnum(name[i]) then start else i + 1, i + 1, Advance(casing, s, name[i]))
  {
    hide KeyBefore, KeyOf;
    if casing.alnum(name[i]) {
      assert name[start..i + 1] == name[start..i] + [name[i]];
      forall key ensures KeyBefore(casing, name, i + 1, key) <==> KeyBefore(casing, name, i, key) {
        NoTokenEndsInside(casing, name, i, key);
      }
    } else {
      forall key ensures KeyBefore(casing, name, i + 1, key)
                    <==> KeyBefore(casing, name, i, key) || key in RunKeys(Lowered(casing, name[start..i])) {
        CloseRun(casing, name, start, i, key);
      }
    }
  }

  lemma {:induction false} ScannerMeaning(casing: Casing, name: string, i: nat) returns (start: int)
    requires i <= |name|
    ensures Scanned(casing, name, start, i, AdvanceAll(casing, START, name[..i]))
  {
    if i == 0 {
      start := 0;
      NothingBefore(casing, name);
    } else {
      hide Scanned, Advance;
      start := ScannerMeaning(casing, name, i - 1);
      assert name[..i][..i - 1] == name[..i - 1];
      ScanOne(casing, name, start, i - 1, AdvanceAll(casing, START, name[..i - 1]));
      start := if casing.alnum(name[i - 1]) then start else i;
    }
  }

  /** The scanner's keys are exactly those of the name's tokens. */
  lemma KeysMeaning(casing: Casing, name: string)
    ensures forall key :: key in Keys(casing, name) <==> IsKey(casing, name, key)
  {
    hide KeyBefore, KeyOf, AdvanceAll;
    var start := ScannerMeaning(casing, name, |name|);
    assert name[..|name|] == name;
    forall key ensures key in Keys(casing, name) <==> IsKey(casing, name, key) {
      CloseRun(casing, name, start, |name|, key);
    }
  }

  /** The one-pass scanner finds exactly the keys of the name's tokens. */
  method NamePrefixKeys(casing: Casing, name: string) returns (keys: set<string>)
    ensures keys == Keys(casing, name)
    ensures forall key :: key in keys <==> IsKey(casing, name, key)
  {
    hide IsKey, KeyOf;
    keys := {};
    var current: seq<string> := [];
    for i := 0 to |name|
      invariant AdvanceAll(casing, START, name[..i]) == Scanner(current, keys)
    {
      assert name[..i + 1][..i] == name[..i];
      if casing.alnum(name[i]) {
        current := current + [casing.lower(name[i])];
      } else if |current| > 0 {
        if |current| >= 2 {
          keys := keys + {KeyOf(current)};
        }
        current := [];
      }
    }
    assert name[..|name|] == name;
    if |current| > 0 && |current| >= 2 {
      keys := keys + {KeyOf(current)};
    }
    KeysMeaning(casing, name);
  }

  // ---------------------------------------------------------------------
  // The documented keys: lower-case first, then split
  // ---------------------------------------------------------------------

  /** The same character classes without lower-casing. */
  function Plain(casing: Casing): Casing {
    Casing(casing.alnum, (c: char) => [c])
  }

  function Text(casing: Casing, name: string): string {
    Concat(Lowered(casing, name))
  }

  /** The keys of the name once `whole`, the platform's lower-casing of strings, has been applied to it. */
  function DocumentedKeys(casing: Casing, whole: string -> string, name: string): set<string> {
    Keys(Plain(casing), whole(name))
  }

  /** A letter whose lower-casing depends on where it stands. */
  predicate Contextual(casing: Casing, whole: string -> string, c: char) {
    whole([c, c]) != casing.lower(c) + casing.lower(c)
  }

  ghost predicate NoneContextual(casing: Casing, whole: string -> string, name: string) {
    forall k | 0 <= k < |name| :: !Contextual(casing, whole, name[k])
  }

  /**
   What is known of lower-casing strings: without contextual letters it goes letter by letter, and a
   contextual letter is alphanumeric and becomes one character.
   */
  ghost predicate LowersStrings(casing: Casing, whole: string -> string) {
    (forall name | NoneContextual(casing, whole, name) :: whole(name) == Text(casing, name))
    && forall c | Contextual(casing, whole, c) :: casing.alnum(c) && |whole([c, c])| == 2
  }

  ghost predicate Over(letters: iset<char>, name: string) {
    forall k | 0 <= k < |name| :: name[k] in letters
  }

  /** Every name over these letters gets its documented keys. */
  ghost predicate KeysAgree(casing: Casing, whole: string -> string, letters: iset<char>) {
    forall name | Over(letters, name) :: Keys(casing, name) == DocumentedKeys(casing, whole, name)
  }

  ghost predicate ByLetter(casing: Casing, whole: string -> string, letters: iset<char>) {
    forall name | Over(letters, name) :: whole(name) == Text(casing, name)
  }

  ghost predicate NoneAdjacent(casing: Casing, t: string) {
    forall k | 0 < k < |t| :: !(casing.alnum(t[k - 1]) && casing.alnum(t[k]))
  }

  /** A text that cuts what surrounds it apart and contributes no key itself. */
  ghost predicate Separates(casing: Casing, t: string) {
    t != [] && !casing.alnum(t[0]) && !casing.alnum(t[|t| - 1]) && NoneAdjacent(casing, t)
  }

  /** Lower-casing keeps the character in its class: one alphanumeric character, or a separator. */
  ghost predicate KeepsClass(casing: Casing, c: char) {
    if casing.alnum(c) then |casing.lower(c)| == 1 && casing.alnum(casing.lower(c)[0])
    else Separates(casing, casing.lower(c))
  }

  lemma {:induction false} AdvanceConcat(casing: Casing, s: Scanner, a: string, b: string)
    ensures AdvanceAll(casing, s, a + b) == AdvanceAll(casing, AdvanceAll(casing, s, a), b)
    decreases |b|
  {
    hide Advance;
    if b == [] {
      assert a + b == a;
    } else {
      assert (a + b)[..|a + b| - 1] == a + b[..|b| - 1];
      AdvanceConcat(casing, s, a, b[..|b| - 1]);
    }
  }

  lemma {:induction false} OverSeparator(casing: Casing, s: Scanner, t: string, k: nat)
    requires Separates(casing, t) && 0 < k <= |t|
    ensures AdvanceAll(Plain(casing), s, t[..k])
         == Scanner(if casing.alnum(t[k - 1]) then [[t[k - 1]]] else [], Closed(s))
  {
    hide KeyOf;
    assert t[..k][..k - 1] == t[..k - 1];
    if k == 1 {
      assert t[..0] == [];
    } else {
      OverSeparator(casing, s, t, k - 1);
    }
  }

  lemma TextPush(casing: Casing, name: string, c: char)
    ensures Text(casing, name + [c]) == Text(casing, name) + casing.lower(c)
  {
    assert Lowered(casing, name + [c]) == Lowered(casing, name) + [casing.lower(c)];
    assert (Lowered(casing, name) + [casing.lower(c)])[..|name|] == Lowered(casing, name);
  }

  /** On names whose characters all keep their class both ways of scanning go through the same states. */
  lemma {:induction false} SameScan(casing: Casing, name: string)
    requires forall k | 0 <= k < |name| :: KeepsClass(casing, name[k])
    ensures AdvanceAll(casing, START, name) == AdvanceAll(Plain(casing), START, Text(casing, name))
  {
    if name != [] {
      var front, c := name[..|name| - 1], name[|name| - 1];
      var t := casing.lower(c);
      SameScan(casing, front);
      assert name == front + [c] && KeepsClass(casing, c);
      TextPush(casing, front, c);
      AdvanceConcat(Plain(casing), START, Text(casing, front), t);
      var s := AdvanceAll(casing, START, front);
      if casing.alnum(c) {
        assert t[..0] == [] && t == [t[0]];
      } else {
        OverSeparator(casing, s, t, |t|);
        assert t[..|t|] == t;
      }
    }
  }

  lemma {:induction false} PlainText(casing: Casing, word: string)
    ensures Concat(Lowered(Plain(casing), word)) == word
  {
    if word != [] {
      var front, c := word[..|word| - 1], word[|word| - 1];
      PlainText(casing, front);
      TextPush(Plain(casing), front, c);
      assert word == front + [c];
    }
  }

  /** A documented key has two or three characters, all alphanumeric. */
  lemma DocumentedShape(casing: Casing, text: string, key: string)
    requires key in Keys(Plain(casing), text)
    ensures 2 <= |key| <= 3 && forall k | 0 <= k < |key| :: casing.alnum(key[k])
  {
    KeysMeaning(Plain(casing), text);
    var lo, hi :| hi < |text| + 1 && hi - lo >= 2 && IsToken(Plain(casing), text, lo, hi)
                  && key == KeyOf(Lowered(Plain(casing), text[lo..hi]));
    var word := text[lo..hi];
    var n := if |word| <= TOKEN_PREFIX_LEN then |word| else TOKEN_PREFIX_LEN;
    var parts := Lowered(Plain(casing), word);
    assert (if |parts| <= TOKEN_PREFIX_LEN then parts else parts[..TOKEN_PREFIX_LEN]) == Lowered(Plain(casing), word[..n]);
    PlainText(casing, word[..n]);
  }

  /** Two adjacent alphanumeric characters make a key. */
  lemma AdjacentMakeKey(casing: Casing, text: string, k: nat)
    requires 0 < k < |text| && casing.alnum(text[k - 1]) && casing.alnum(text[k])
    ensures Keys(casing, text) != {}
  {
    var a, b := text[..k + 1], text[k + 1..];
    assert text == a + b && a[..k] == text[..k] && a[..k][..k - 1] == text[..k - 1];
    AdvanceConcat(casing, START, a, b);
    var s := AdvanceAll(casing, START, a);
    assert |s.run| >= 2;
    KeysNeverLost(casing, s, b);
  }

  lemma {:induction false} KeysNeverLost(casing: Casing, s: Scanner, text: string)
    requires Closed(s) != {}
    ensures Closed(AdvanceAll(casing, s, text)) != {}
  {
    hide KeyOf;
    if text != [] {
      var before := AdvanceAll(casing, s, text[..|text| - 1]);
      KeysNeverLost(casing, s, text[..|text| - 1]);
      var key :| key in Closed(before);
      if key in before.keys {
        assert key in Advance(casing, before, text[|text| - 1]).keys;
      }
    }
  }

  /** A text without adjacent alphanumeric characters has no key. */
  lemma {:induction false} NoKeys(casing: Casing, text: string)
    requires NoneAdjacent(casing, text)
    ensures Keys(casing, text) == {}
    ensures var s := AdvanceAll(casing, START, text);
            s.keys == {} && |s.run| == if text != [] && casing.alnum(text[|text| - 1]) then 1 else 0
  {
    hide KeyOf;
    if text != [] {
      NoKeys(casing, text[..|text| - 1]);
    }
  }

  lemma AlnumKept(casing: Casing, whole: string -> string, letters: iset<char>, c: char)
    requires KeysAgree(casing, whole, letters) && ByLetter(casing, whole, letters) && c in letters && casing.alnum(c)
    ensures KeepsClass(casing, c)
  {
    hide Keys, Text;
    var x := casing.lower(c);
    var name := [c, c];
    TwiceIsKey(casing, c);
    assert Over(letters, name);
    DocumentedShape(casing, Text(casing, name), x + x);
    assert |x + x| == 2 * |x|;
    assert (x + x)[0] == x[0];
  }

  lemma TwiceIsKey(casing: Casing, c: char)
    requires casing.alnum(c)
    ensures casing.lower(c) + casing.lower(c) in Keys(casing, [c, c])
  {
    var name := [c, c];
    OverWord(casing, START, name);
    assert [] + Lowered(casing, name) == Lowered(casing, name);
    TwoLetters(casing, c, c);
    assert KeyOf(Lowered(casing, name)) == Text(casing, name);
  }

  lemma TwoLetters(casing: Casing, c: char, d: char)
    ensures Text(casing, [c, d]) == casing.lower(c) + casing.lower(d)
  {
    EmptyText(casing);
    TextPush(casing, "", c);
    TextPush(casing, [c], d);
    assert "" + [c] == [c] && [c] + [d] == [c, d];
  }

  lemma SeparatorKept(casing: Casing, whole: string -> string, letters: iset<char>, c: char, d: char)
    requires KeysAgree(casing, whole, letters) && ByLetter(casing, whole, letters) && c in letters && d in letters && !casing.alnum(c) && casing.alnum(d)
    ensures KeepsClass(casing, c)
  {
    AlnumKept(casing, whole, letters, d);
    var t, e := casing.lower(c), casing.lower(d);
    var name := [d, c, d];
    assert Over(letters, name);
    NoKeys(casing, name);
    var text := e + t + e;
    assert Text(casing, name) == text by {
      TwoLetters(casing, d, c);
      TextPush(casing, [d, c], d);
      assert [d, c] + [d] == name;
    }
    assert DocumentedKeys(casing, whole, name) == {};
    KeylessNotAdjacent(casing, text);
    assert text[0] == e[0] && text[|text| - 1] == e[0];
    assert forall k | 0 <= k < |t| :: text[k + 1] == t[k];
    assert |text| == |t| + 2;
    SeparatedInside(casing, t, text);
  }

  lemma KeylessNotAdjacent(casing: Casing, text: string)
    requires Keys(Plain(casing), text) == {}
    ensures NoneAdjacent(casing, text)
  {
    forall k | 0 < k < |text| ensures !(casing.alnum(text[k - 1]) && casing.alnum(text[k])) {
      if casing.alnum(text[k - 1]) && casing.alnum(text[k]) {
        AdjacentMakeKey(Plain(casing), text, k);
      }
    }
  }

  lemma SeparatedInside(casing: Casing, t: string, text: string)
    requires |text| == |t| + 2 && casing.alnum(text[0]) && casing.alnum(text[|text| - 1])
    requires forall k | 0 <= k < |t| :: text[k + 1] == t[k]
    requires NoneAdjacent(casing, text)
    ensures Separates(casing, t)
  {
    assert !(casing.alnum(text[0]) && casing.alnum(text[1]));
    if t != [] {
      assert !(casing.alnum(text[|text| - 1]) && casing.alnum(text[|text| - 2]));
      assert text[|text| - 2] == t[|t| - 1] && text[1] == t[0];
    }
    forall k | 0 < k < |t| ensures !(casing.alnum(t[k - 1]) && casing.alnum(t[k])) {
      assert !(casing.alnum(text[k]) && casing.alnum(text[k + 1]));
    }
  }

  ghost predicate LowersApart(casing: Casing, c: char, d: char) {
    NoneAdjacent(casing, casing.lower(c) + casing.lower(d))
  }

  /** If no two letters bring alphanumeric characters together, no name over them does. */
  lemma {:induction false} ApartThroughout(casing: Casing, letters: iset<char>, name: string)
    requires Over(letters, name) && forall c, d | c in letters && d in letters :: LowersApart(casing, c, d)
    ensures var t := Text(casing, name);
            NoneAdjacent(casing, t)
            && (t == [] || exists c :: c in letters && casing.lower(c) != [] && casing.lower(c)[|casing.lower(c)| - 1] == t[|t| - 1])
  {
    hide Text, LowersApart;
    if name == [] {
      EmptyText(casing);
    } else {
      var front, d := name[..|name| - 1], name[|name| - 1];
      ApartThroughout(casing, letters, front);
      TextPush(casing, front, d);
      assert name == front + [d] && d in letters;
      var a, b := Text(casing, front), casing.lower(d);
      if a == [] {
        assert a + b == b;
        ApartSplit(casing, d, d);
      } else {
        var c :| c in letters && casing.lower(c) != [] && casing.lower(c)[|casing.lower(c)| - 1] == a[|a| - 1];
        ApartSplit(casing, c, d);
        Join(casing, a, b);
      }
    }
  }

  lemma ApartSplit(casing: Casing, c: char, d: char)
    requires LowersApart(casing, c, d)
    ensures var a, b := casing.lower(c), casing.lower(d);
            NoneAdjacent(casing, b) && (a != [] && b != [] ==> !(casing.alnum(a[|a| - 1]) && casing.alnum(b[0])))
  {
    var a, b := casing.lower(c), casing.lower(d);
    var t := a + b;
    forall k | 0 < k < |b| ensures !(casing.alnum(b[k - 1]) && casing.alnum(b[k])) {
      assert t[|a| + k - 1] == b[k - 1] && t[|a| + k] == b[k];
    }
    if a != [] && b != [] {
      assert t[|a| - 1] == a[|a| - 1] && t[|a|] == b[0];
    }
  }

  lemma Join(casing: Casing, a: string, b: string)
    requires NoneAdjacent(casing, a) && NoneAdjacent(casing, b)
    requires a != [] && b != [] ==> !(casing.alnum(a[|a| - 1]) && casing.alnum(b[0]))
    ensures NoneAdjacent(casing, a + b)
  {
  }

  /** The keys of a doubled contextual letter differ. */
  lemma ContextualDiffers(casing: Casing, whole: string -> string, c: char)
    requires casing.alnum(c) && Contextual(casing, whole, c) && |whole([c, c])| == 2
    ensures Keys(casing, [c, c]) != DocumentedKeys(casing, whole, [c, c])
  {
    hide Keys;
    var x, t := casing.lower(c), whole([c, c]);
    TwiceIsKey(casing, c);
    if x + x in Keys(Plain(casing), t) {
      KeyOfTwo(casing, t, x + x);
    }
  }

  lemma KeyOfTwo(casing: Casing, text: string, key: string)
    requires |text| == 2 && key in Keys(Plain(casing), text)
    ensures key == text
  {
    KeysMeaning(Plain(casing), text);
    var lo, hi :| hi < |text| + 1 && hi - lo >= 2 && IsToken(Plain(casing), text, lo, hi)
                  && key == KeyOf(Lowered(Plain(casing), text[lo..hi]));
    assert text[lo..hi] == text;
    PlainText(casing, text);
  }

  /** The condition on letters that are lower-cased wherever they stand. */
  ghost predicate LettersKept(casing: Casing, letters: iset<char>) {
    if exists d :: d in letters && casing.alnum(d)
    then forall c | c in letters :: KeepsClass(casing, c)
    else forall c, d | c in letters && d in letters :: LowersApart(casing, c, d)
  }

  /**
   The code lower-cases the characters of tokens one by one, its documentation the name before it is
   split. The two give all names over the letters the same keys exactly if no letter is contextual and,
   with an alphanumeric letter among them, lower-casing keeps every letter in its class; without one, no
   two letters lower-case to adjacent alphanumeric characters.
   */
  lemma DocumentedKeysCondition(casing: Casing, whole: string -> string, letters: iset<char>)
    requires LowersStrings(casing, whole)
    ensures KeysAgree(casing, whole, letters)
       <==> (forall c | c in letters :: !Contextual(casing, whole, c)) && LettersKept(casing, letters)
  {
    hide LettersKept, Keys, DocumentedKeys, Text, Contextual;
    if forall c | c in letters :: !Contextual(casing, whole, c) {
      forall name | Over(letters, name) ensures whole(name) == Text(casing, name) {
        assert NoneContextual(casing, whole, name);
      }
      hide LowersStrings, KeysAgree, Over;
      ByLetterCondition(casing, whole, letters);
    } else {
      var c :| c in letters && Contextual(casing, whole, c);
      ContextualDiffers(casing, whole, c);
      assert Over(letters, [c, c]);
    }
  }

  lemma ByLetterCondition(casing: Casing, whole: string -> string, letters: iset<char>)
    requires ByLetter(casing, whole, letters)
    ensures KeysAgree(casing, whole, letters) <==> LettersKept(casing, letters)
  {
    hide KeepsClass, LowersApart, Keys, DocumentedKeys;
    if d :| d in letters && casing.alnum(d) {
      if KeysAgree(casing, whole, letters) {
        forall c | c in letters ensures KeepsClass(casing, c) {
          if casing.alnum(c) {
            AlnumKept(casing, whole, letters, c);
          } else {
            SeparatorKept(casing, whole, letters, c, d);
          }
        }
      } else {
        var name :| Over(letters, name) && Keys(casing, name) != DocumentedKeys(casing, whole, name);
        if forall c | c in letters :: KeepsClass(casing, c) {
          SameKeys(casing, whole, name);
        }
      }
    } else {
      KeylessCondition(casing, whole, letters);
    }
  }

  lemma SameKeys(casing: Casing, whole: string -> string, name: string)
    requires whole(name) == Text(casing, name) && forall k | 0 <= k < |name| :: KeepsClass(casing, name[k])
    ensures Keys(casing, name) == DocumentedKeys(casing, whole, name)
  {
    SameScan(casing, name);
  }

  lemma KeylessCondition(casing: Casing, whole: string -> string, letters: iset<char>)
    requires ByLetter(casing, whole, letters) && forall c | c in letters :: !casing.alnum(c)
    ensures KeysAgree(casing, whole, letters) <==> forall c, d | c in letters && d in letters :: LowersApart(casing, c, d)
  {
    hide Keys, Text;
    if KeysAgree(casing, whole, letters) {
      forall c, d | c in letters && d in letters ensures LowersApart(casing, c, d) {
        var name := [c, d];
        assert Over(letters, name);
        NoKeys(casing, name);
        TwoLetters(casing, c, d);
        KeylessNotAdjacent(casing, Text(casing, name));
      }
    } else {
      var name :| Over(letters, name) && Keys(casing, name) != DocumentedKeys(casing, whole, name);
      NoKeys(casing, name);
      if forall c, d | c in letters && d in letters :: LowersApart(casing, c, d) {
        ApartThroughout(casing, letters, name);
        NoKeys(Plain(casing), Text(casing, name));
      }
    }
  }

  // ---------------------------------------------------------------------
  // Lower-casing strings in Python: the capital sigma is the contextual letter
  // ---------------------------------------------------------------------

  const SIGMA := '\U{03A3}'
  const SMALL_SIGMA := '\U{03C3}'
  const FINAL_SIGMA := '\U{03C2}'

  /** Which characters have a case, and which are skipped in looking for one that has. */
  datatype Script = Script(cased: char -> bool, ignorable: char -> bool)

  ghost predicate CasedBefore(script: Script, name: string, i: int)
    requires 0 <= i < |name|
  {
    exists j :: 0 <= j < i && !script.ignorable(name[j]) && script.cased(name[j])
                && forall m | j < m < i :: script.ignorable(name[m])
  }

  ghost predicate CasedAfter(script: Script, name: string, i: int)
    requires 0 <= i < |name|
  {
    exists j :: i < j < |name| && !script.ignorable(name[j]) && script.cased(name[j])
                && forall m | i < m < j :: script.ignorable(name[m])
  }

  /** A sigma at the end of a word is final. */
  ghost function LoweredAt(casing: Casing, script: Script, name: string, i: int): string
    requires 0 <= i < |name|
  {
    if name[i] != SIGMA then casing.lower(name[i])
    else if CasedBefore(script, name, i) && !CasedAfter(script, name, i) then [FINAL_SIGMA]
    else [SMALL_SIGMA]
  }

  ghost function LoweredString(casing: Casing, script: Script, name: string): string {
    Concat(seq(|name|, i requires 0 <= i < |name| => LoweredAt(casing, script, name, i)))
  }

  ghost function StringLower(casing: Casing, script: Script): string -> string {
    (name: string) => LoweredString(casing, script, name)
  }

  /** What holds of the capital sigma. */
  ghost predicate KnowsSigma(casing: Casing, script: Script) {
    casing.alnum(SIGMA) && casing.lower(SIGMA) == [SMALL_SIGMA] && script.cased(SIGMA) && !script.ignorable(SIGMA)
  }

  lemma WithoutSigma(casing: Casing, script: Script, name: string)
    requires forall k | 0 <= k < |name| :: name[k] != SIGMA
    ensures LoweredString(casing, script, name) == Text(casing, name)
  {
    assert seq(|name|, i requires 0 <= i < |name| => LoweredAt(casing, script, name, i)) == Lowered(casing, name);
  }

  lemma TwoLowered(casing: Casing, script: Script, name: string)
    requires |name| == 2
    ensures LoweredString(casing, script, name) == LoweredAt(casing, script, name, 0) + LoweredAt(casing, script, name, 1)
  {
    hide LoweredAt;
    var a, b := LoweredAt(casing, script, name, 0), LoweredAt(casing, script, name, 1);
    var parts, one := [a, b], [a];
    assert seq(|name|, i requires 0 <= i < |name| => LoweredAt(casing, script, name, i)) == parts;
    assert parts[..1] == one && |one[..0]| == 0;
    assert Concat(one) == a;
  }

  lemma SigmaAtEnd(casing: Casing, script: Script, c: char)
    requires KnowsSigma(casing, script) && script.cased(c) && !script.ignorable(c)
    ensures LoweredAt(casing, script, [c, SIGMA], 1) == [FINAL_SIGMA]
    ensures LoweredAt(casing, script, [SIGMA, c], 0) == [SMALL_SIGMA]
  {
    var name := [c, SIGMA];
    assert !script.ignorable(name[0]) && script.cased(name[0]);
  }

  /** String lower-casing is as assumed above, with the capital sigma as its one contextual letter. */
  lemma SigmaIsContextual(casing: Casing, script: Script)
    requires KnowsSigma(casing, script)
    ensures LowersStrings(casing, StringLower(casing, script))
    ensures forall c :: Contextual(casing, StringLower(casing, script), c) <==> c == SIGMA
  {
    hide LoweredString, LoweredAt, Text;
    var whole := StringLower(casing, script);
    forall c | c != SIGMA ensures !Contextual(casing, whole, c) {
      WithoutSigma(casing, script, [c, c]);
      TwoLetters(casing, c, c);
    }
    TwoLowered(casing, script, [SIGMA, SIGMA]);
    SigmaAtEnd(casing, script, SIGMA);
    assert whole([SIGMA, SIGMA]) == [SMALL_SIGMA, FINAL_SIGMA];
    assert whole([SIGMA, SIGMA])[1] != (casing.lower(SIGMA) + casing.lower(SIGMA))[1];
    forall name | NoneContextual(casing, whole, name) ensures whole(name) == Text(casing, name) {
      hide Contextual;
      WithoutSigma(casing, script, name);
    }
  }

  /** With Python's lower-casing: no capital sigma among the letters, and the rest kept in their classes. */
  lemma PythonKeysCondition(casing: Casing, script: Script, letters: iset<char>)
    requires KnowsSigma(casing, script)
    ensures KeysAgree(casing, StringLower(casing, script), letters) <==> SIGMA !in letters && LettersKept(casing, letters)
  {
    hide KeysAgree, LettersKept, StringLower, LowersStrings;
    SigmaIsContextual(casing, script);
    DocumentedKeysCondition(casing, StringLower(casing, script), letters);
  }

  /** A name ending in a capital sigma has another key than the documented one, though no letter changes its class. */
  lemma FinalSigmaDiffers(casing: Casing, script: Script)
    requires KnowsSigma(casing, script)
    requires forall c | c in {'\U{0391}', '\U{03B1}', SMALL_SIGMA, FINAL_SIGMA} :: casing.alnum(c)
    requires casing.lower('\U{0391}') == ['\U{03B1}'] && script.cased('\U{0391}') && !script.ignorable('\U{0391}')
    ensures var name := ['\U{0391}', SIGMA];
            Keys(casing, name) == {['\U{03B1}', SMALL_SIGMA]}
            && DocumentedKeys(casing, StringLower(casing, script), name) == {['\U{03B1}', FINAL_SIGMA]}
            && KeepsClass(casing, '\U{0391}') && KeepsClass(casing, SIGMA)
  {
    var alpha, a := '\U{0391}', '\U{03B1}';
    TwoLetterKey(casing, [alpha, SIGMA], [a, SMALL_SIGMA]);
    TwoLowered(casing, script, [alpha, SIGMA]);
    SigmaAtEnd(casing, script, alpha);
    assert LoweredString(casing, script, [alpha, SIGMA]) == [a, FINAL_SIGMA];
    TwoLetterKey(Plain(casing), [a, FINAL_SIGMA], [a, FINAL_SIGMA]);
  }

  lemma TwoLetterKey(casing: Casing, name: string, key: string)
    requires |name| == |key| == 2 && casing.alnum(name[0]) && casing.alnum(name[1])
    requires casing.lower(name[0]) == [key[0]] && casing.lower(name[1]) == [key[1]]
    ensures Keys(casing, name) == {key}
  {
    OverWord(casing, START, name);
    assert [] + Lowered(casing, name) == Lowered(casing, name);
    TwoLetters(casing, name[0], name[1]);
    assert name == [name[0], name[1]] && key == [key[0]] + [key[1]];
    assert KeyOf(Lowered(casing, name)) == Text(casing, name);
  }

  lemma {:induction false} OverWord(casing: Casing, s: Scanner, word: string)
    requires forall k | 0 <= k < |word| :: casing.alnum(word[k])
    ensures AdvanceAll(casing, s, word) == Scanner(s.run + Lowered(casing, word), s.keys)
  {
    if word == [] {
      assert s.run + Lowered(casing, word) == s.run;
    } else {
      OverWord(casing, s, word[..|word| - 1]);
      assert Lowered(casing, word) == Lowered(casing, word[..|word| - 1]) + [casing.lower(word[|word| - 1])];
    }
  }

  /**
   They do differ: a capital I with a dot lower-cases to an i and a combining dot, which is not
   alphanumeric, so the documented keys of the name are those of two tokens and the code's those of one.
   */
  lemma DottedCapitalSplits(casing: Casing, script: Script)
    requires forall k | 0 <= k < 8 :: casing.alnum("abcdixyz"[k]) && casing.lower("abcdixyz"[k]) == ["abcdixyz"[k]]
    requires casing.alnum('\U{0130}') && casing.lower('\U{0130}') == ['i', '\U{0307}'] && !casing.alnum('\U{0307}')
    ensures var name := "abcd\U{0130}xyz";
            Keys(casing, name) == {"abc"}
            && DocumentedKeys(casing, StringLower(casing, script), name) == {"abc", "xyz"}
  {
    var name, dot, all := "abcd\U{0130}xyz", '\U{0307}', "abcdixyz";
    assert casing.alnum(all[0]) && casing.alnum(all[1]) && casing.alnum(all[2]) && casing.alnum(all[3]);
    assert casing.alnum(all[4]) && casing.alnum(all[5]) && casing.alnum(all[6]) && casing.alnum(all[7]);
    OneWord(casing, name, "abc");
    var plain := Plain(casing);
    WithoutSigma(casing, script, name);
    TextOfDotted(casing);
    OneWord(plain, "abcdi", "abc");
    AdvanceConcat(plain, START, "abcdi", [dot]);
    var s := AdvanceAll(plain, START, "abcdi" + [dot]);
    assert |[dot][..0]| == 0;
    assert s == Scanner([], {"abc"});
    AdvanceConcat(plain, START, "abcdi" + [dot], "xyz");
    OverWord(plain, s, "xyz");
    FirstThree(plain, "xyz", "xyz");
    assert [] + Lowered(plain, "xyz") == Lowered(plain, "xyz");
  }

  lemma OneWord(casing: Casing, word: string, key: string)
    requires |key| == 3 && |word| >= 3 && forall k | 0 <= k < |word| :: casing.alnum(word[k])
    requires forall k | 0 <= k < 3 :: casing.lower(word[k]) == [key[k]]
    ensures AdvanceAll(casing, START, word) == Scanner(Lowered(casing, word), {})
    ensures RunKeys(Lowered(casing, word)) == {key} == Keys(casing, word)
  {
    OverWord(casing, START, word);
    FirstThree(casing, word, key);
    assert [] + Lowered(casing, word) == Lowered(casing, word);
  }

  lemma FirstThree(casing: Casing, name: string, key: string)
    requires |key| == 3 && |name| >= 3 && forall k | 0 <= k < 3 :: casing.lower(name[k]) == [key[k]]
    ensures KeyOf(Lowered(casing, name)) == key
  {
    var parts := Lowered(casing, name);
    var three := [[key[0]], [key[1]], [key[2]]];
    assert (if |parts| <= TOKEN_PREFIX_LEN then parts else parts[..TOKEN_PREFIX_LEN]) == three;
    var one := [[key[0]]];
    assert three[..2] == [[key[0]], [key[1]]] && three[..2][..1] == one && |one[..0]| == 0;
    assert Concat(one) == [key[0]];
    assert Concat(three[..2]) == [key[0], key[1]];
    assert Concat(three) == [key[0], key[1], key[2]] == key;
  }

  lemma TextOfDotted(casing: Casing)
    requires forall k | 0 <= k < 8 :: casing.lower("abcdixyz"[k]) == ["abcdixyz"[k]]
    requires casing.lower('\U{0130}') == ['i', '\U{0307}']
    ensures Text(casing, "abcd\U{0130}xyz") == "abcdi" + ['\U{0307}'] + "xyz"
  {
    hide Text;
    var all := "abcdixyz";
    assert casing.lower(all[0]) == "a" && casing.lower(all[1]) == "b" && casing.lower(all[2]) == "c" && casing.lower(all[3]) == "d";
    assert casing.lower(all[5]) == "x" && casing.lower(all[6]) == "y" && casing.lower(all[7]) == "z";
    EmptyText(casing);
    TextPush(casing, "", 'a');
    TextPush(casing, "a", 'b');
    TextPush(casing, "ab", 'c');
    TextPush(casing, "abc", 'd');
    TextPush(casing, "abcd", '\U{0130}');
    TextPush(casing, "abcd\U{0130}", 'x');
    TextPush(casing, "abcd\U{0130}x", 'y');
    TextPush(casing, "abcd\U{0130}xy", 'z');
    assert "" + ['a'] == "a" && "a" + ['b'] == "ab" && "ab" + ['c'] == "abc" && "abc" + ['d'] == "abcd";
    assert "abcd" + ['\U{0130}'] == "abcd\U{0130}" && "abcd\U{0130}" + ['x'] == "abcd\U{0130}x";
    assert "abcd\U{0130}x" + ['y'] == "abcd\U{0130}xy" && "abcd\U{0130}xy" + ['z'] == "abcd\U{0130}xyz";
  }

  lemma EmptyText(casing: Casing)
    ensures Text(casing, "") == ""
  {
  }

  // ---------------------------------------------------------------------
  // The all-pairs path
  // ---------------------------------------------------------------------

  datatype Scored = Scored(i: int, j: int, sim: real)

  datatype Result<T> = Ok(value: T) | ValueError

  /** Pairs (i, j) with i < j < hi that reach the threshold, in order of j. */
  function Row(mat: seq<seq<real>>, threshold: real, i: nat, hi: nat): seq<Scored>
    requires i < |mat| && hi <= |mat|
  {
    if hi <= i + 1 then []
    else
      var sim := Dot(mat[i], mat[hi - 1]);
      Row(mat, threshold, i, hi - 1) + if sim >= threshold then [Scored(i, hi - 1, sim)] else []
  }

  /** All pairs whose first member is below `hi`, row by row. */
  function Rows(mat: seq<seq<real>>, threshold: real, hi: nat): seq<Scored>
    requires hi <= |mat|
  {
    if hi == 0 then [] else Rows(mat, threshold, hi - 1) + Row(mat, threshold, hi - 1, |mat|)
  }

  function AllPairs(mat: seq<seq<real>>, threshold: real): seq<Scored> {
    Rows(mat, threshold, |mat|)
  }

  ghost predicate IsScoredPair(mat: seq<seq<real>>, threshold: real, s: Scored) {
    0 <= s.i < s.j < |mat| && s.sim == Dot(mat[s.i], mat[s.j]) && s.sim >= threshold
  }

  lemma {:induction false} RowMeaning(mat: seq<seq<real>>, threshold: real, i: nat, hi: nat)
    requires i < |mat| && hi <= |mat|
    ensures forall s: Scored :: s in Row(mat, threshold, i, hi) <==> IsScoredPair(mat, threshold, s) && s.i == i && s.j < hi
    ensures forall a, b | 0 <= a < b < |Row(mat, threshold, i, hi)| ::
              Row(mat, threshold, i, hi)[a].j < Row(mat, threshold, i, hi)[b].j
  {
    hide Dot;
    var row := Row(mat, threshold, i, hi);
    if hi > i + 1 {
      RowMeaning(mat, threshold, i, hi - 1);
      RowNext(mat, threshold, i, hi - 1);
      hide Row;
      var before, sim := Row(mat, threshold, i, hi - 1), Dot(mat[i], mat[hi - 1]);
      var next := Scored(i, hi - 1, sim);
      assert forall k | 0 <= k < |before| :: before[k] in before;
      forall s: Scored ensures s in row <==> IsScoredPair(mat, threshold, s) && s.i == i && s.j < hi {
        assert s in row <==> s in before || (sim >= threshold && s == next);
      }
    }
  }

  ghost predicate Precedes(a: Scored, b: Scored) {
    a.i < b.i || (a.i == b.i && a.j < b.j)
  }

  /** The list holds every pair at or above the threshold, exactly once, in lexicographic order. */
  lemma {:induction false} RowsMeaning(mat: seq<seq<real>>, threshold: real, hi: nat)
    requires hi <= |mat|
    ensures forall s: Scored :: s in Rows(mat, threshold, hi) <==> IsScoredPair(mat, threshold, s) && s.i < hi
    ensures forall a, b | 0 <= a < b < |Rows(mat, threshold, hi)| ::
              Precedes(Rows(mat, threshold, hi)[a], Rows(mat, threshold, hi)[b])
  {
    hide Dot, Row;
    if hi > 0 {
      RowsMeaning(mat, threshold, hi - 1);
      RowMeaning(mat, threshold, hi - 1, |mat|);
      var before, row := Rows(mat, threshold, hi - 1), Row(mat, threshold, hi - 1, |mat|);
      assert forall k | 0 <= k < |before| :: before[k] in before;
      assert forall k | 0 <= k < |row| :: row[k] in row;
    }
  }

  lemma {:induction false} RowStart(mat: seq<seq<real>>, threshold: real, i: nat)
    requires i < |mat|
    ensures Row(mat, threshold, i, i + 1) == []
  {
  }

  lemma {:induction false} RowNext(mat: seq<seq<real>>, threshold: real, i: nat, j: nat)
    requires i < |mat| && i < j < |mat|
    ensures Row(mat, threshold, i, j + 1) == Row(mat, threshold, i, j)
              + if Dot(mat[i], mat[j]) >= threshold then [Scored(i, j, Dot(mat[i], mat[j]))] else []
  {
    hide Dot;
  }

  method ScoreAllPairs(mat: seq<seq<real>>, threshold: real) returns (results: seq<Scored>)
    ensures results == AllPairs(mat, threshold)
  {
    hide Dot, Row;
    results := [];
    for i := 0 to |mat|
      invariant results == Rows(mat, threshold, i)
    {
      ghost var before := results;
      RowStart(mat, threshold, i);
      for j := i + 1 to |mat|
        invariant results == before + Row(mat, threshold, i, j)
      {
        RowNext(mat, threshold, i, j);
        var sim := Dot(mat[i], mat[j]);
        if sim >= threshold {
          results := results + [Scored(i, j, sim)];
        }
      }
    }
  }

  // ---------------------------------------------------------------------
  // The blocked path
  // ---------------------------------------------------------------------

  ghost predicate ShareKey(casing: Casing, a: string, b: string) {
    exists key :: IsKey(casing, a, key) && IsKey(casing, b, key)
  }

  /** Whether the names of a scored pair share a key. */
  ghost function NamesShare(casing: Casing, names: seq<string>): Scored -> bool {
    (s: Scored) => 0 <= s.i < |names| && 0 <= s.j < |names| && ShareKey(casing, names[s.i], names[s.j])
  }

  /** The members of c below hi, in ascending order: what sorting the candidate set yields. */
  function Ascending(c: set<int>, hi: nat): (r: seq<int>)
    ensures forall k :: k in r <==> k in c && 0 <= k < hi
    ensures forall a, b | 0 <= a < b < |r| :: r[a] < r[b]
    ensures forall a | 0 <= a < |r| :: 0 <= r[a] < hi
  {
    if hi == 0 then []
    else
      var before := Ascending(c, hi - 1);
      assert forall a | 0 <= a < |before| :: before[a] in before;
      if hi - 1 in c then before + [hi - 1] else before
  }

  function InSet(c: set<int>): Scored -> bool {
    (s: Scored) => s.j in c
  }

  lemma RowStep(mat: seq<seq<real>>, threshold: real, i: nat, j: nat, keep: Scored -> bool)
    requires i < |mat| && j < |mat|
    ensures Select(Row(mat, threshold, i, j + 1), keep)
         == Select(Row(mat, threshold, i, j), keep)
            + if i < j && Dot(mat[i], mat[j]) >= threshold && keep(Scored(i, j, Dot(mat[i], mat[j])))
              then [Scored(i, j, Dot(mat[i], mat[j]))] else []
  {
    hide Dot;
    SelectPush(Row(mat, threshold, i, j), Scored(i, j, Dot(mat[i], mat[j])), keep);
    assert Row(mat, threshold, i, j) + [] == Row(mat, threshold, i, j);
  }

  lemma {:induction false} SkipNonCandidates(mat: seq<seq<real>>, threshold: real, i: nat, lo: nat, hi: nat, c: set<int>)
    requires i < |mat| && lo <= hi <= |mat|
    requires forall j | lo <= j < hi :: j !in c
    ensures Select(Row(mat, threshold, i, lo), InSet(c)) == Select(Row(mat, threshold, i, hi), InSet(c))
    decreases hi
  {
    hide Dot, Row;
    if lo < hi {
      SkipNonCandidates(mat, threshold, i, lo, hi - 1, c);
      RowStep(mat, threshold, i, hi - 1, InSet(c));
    }
  }

  /** Scoring the sorted candidates of i gives the all-pairs row restricted to the candidates. */
  method ScoreCandidates(mat: seq<seq<real>>, threshold: real, i: nat, candidates: set<int>) returns (scored: seq<Scored>)
    requires i < |mat| && forall j | j in candidates :: i < j < |mat|
    ensures scored == Select(Row(mat, threshold, i, |mat|), InSet(candidates))
  {
    hide Dot, Select, Row, Ascending, InSet;
    scored := [];
    var order := Ascending(candidates, |mat|);
    EmptyRow(mat, threshold, i, InSet(candidates));
    for t := 0 to |order|
      invariant scored == Select(Row(mat, threshold, i, Done(order, t)), InSet(candidates))
    {
      var j := order[t];
      assert j in order;
      CandidateStep(mat, threshold, i, candidates, t);
      var sim := Dot(mat[i], mat[j]);
      if sim >= threshold {
        scored := scored + [Scored(i, j, sim)];
      }
    }
    LastCandidate(mat, threshold, i, candidates);
  }

  /** How far the row has been covered after the first t candidates. */
  ghost function Done(order: seq<int>, t: nat): nat
    requires t <= |order| && forall u | 0 <= u < |order| :: order[u] >= 0
  {
    if t == 0 then 0 else order[t - 1] + 1
  }

  lemma CandidateStep(mat: seq<seq<real>>, threshold: real, i: nat, c: set<int>, t: nat)
    requires i < |mat| && forall j | j in c :: i < j < |mat|
    requires t < |Ascending(c, |mat|)|
    ensures var order := Ascending(c, |mat|);
            var j := order[t];
            j in order && Done(order, t) <= j < |mat| && i < j
            && Select(Row(mat, threshold, i, j + 1), InSet(c))
               == Select(Row(mat, threshold, i, Done(order, t)), InSet(c))
                  + if Dot(mat[i], mat[j]) >= threshold then [Scored(i, j, Dot(mat[i], mat[j]))] else []
  {
    hide Dot, Select, Row, Ascending;
    var order := Ascending(c, |mat|);
    assert order[t] in order;
    GapHasNoCandidate(c, order, |mat|, t, Done(order, t));
    SkipNonCandidates(mat, threshold, i, Done(order, t), order[t], c);
    RowStep(mat, threshold, i, order[t], InSet(c));
  }

  lemma LastCandidate(mat: seq<seq<real>>, threshold: real, i: nat, c: set<int>)
    requires i < |mat|
    ensures var order := Ascending(c, |mat|);
            Done(order, |order|) <= |mat|
            && Select(Row(mat, threshold, i, Done(order, |order|)), InSet(c)) == Select(Row(mat, threshold, i, |mat|), InSet(c))
  {
    hide Dot, Select, Row, Ascending;
    var order := Ascending(c, |mat|);
    var done := Done(order, |order|);
    assert order != [] ==> order[|order| - 1] in order;
    forall k | done <= k < |mat| ensures k !in c {
      assert k in order <==> k in c;
    }
    SkipNonCandidates(mat, threshold, i, done, |mat|, c);
  }

  lemma GapHasNoCandidate(c: set<int>, order: seq<int>, n: nat, t: nat, done: int)
    requires order == Ascending(c, n) && t < |order| && done >= 0
    requires forall u | 0 <= u < t :: order[u] < done
    ensures forall k | done <= k < order[t] :: k !in c
  {
    assert order[t] in order;
    forall k | done <= k < order[t] ensures k !in c {
      assert k in order <==> k in c;
    }
  }

  lemma EmptyRow(mat: seq<seq<real>>, threshold: real, i: nat, keep: Scored -> bool)
    requires i < |mat|
    ensures Select(Row(mat, threshold, i, 0), keep) == []
  {
  }

  ghost predicate Posted(inverted: map<string, seq<int>>, k: string, j: int) {
    k in inverted && j in inverted[k]
  }

  /** `inverted` lists, under each key, the rows whose names have that key. */
  ghost predicate Inverts(inverted: map<string, seq<int>>, rowKeys: seq<set<string>>) {
    forall k, j :: Posted(inverted, k, j) <==> 0 <= j < |rowKeys| && k in rowKeys[j]
  }

  method Invert(rowKeys: seq<set<string>>) returns (inverted: map<string, seq<int>>)
    ensures Inverts(inverted, rowKeys)
  {
    inverted := map[];
    for i := 0 to |rowKeys|
      invariant Inverts(inverted, rowKeys[..i])
    {
      var rest := rowKeys[i];
      ghost var before := inverted;
      while rest != {}
        invariant rest <= rowKeys[i]
        invariant forall k, j :: Posted(inverted, k, j) <==>
            Posted(before, k, j) || (j == i && k in rowKeys[i] && k !in rest)
        decreases rest
      {
        var k :| k in rest;
        rest := rest - {k};
        ghost var previous := inverted;
        inverted := inverted[k := (if k in inverted then inverted[k] else []) + [i]];
        assert forall l, j :: Posted(inverted, l, j) <==> Posted(previous, l, j) || (l == k && j == i);
      }
      forall k, j
        ensures Posted(inverted, k, j) <==> 0 <= j < i + 1 && k in rowKeys[..i + 1][j]
      {
        assert Posted(before, k, j) <==> 0 <= j < i && k in rowKeys[..i][j];
      }
    }
    assert rowKeys[..|rowKeys|] == rowKeys;
  }

  /** The later rows that share a key with row i. */
  method Candidates(inverted: map<string, seq<int>>, rowKeys: seq<set<string>>, i: nat) returns (candidates: set<int>)
    requires i < |rowKeys| && Inverts(inverted, rowKeys)
    ensures forall j :: j in candidates <==> i < j < |rowKeys| && rowKeys[i] * rowKeys[j] != {}
  {
    candidates := {};
    var rest := rowKeys[i];
    while rest != {}
      invariant rest <= rowKeys[i]
      invariant forall j :: j in candidates <==> i < j < |rowKeys| && (rowKeys[i] - rest) * rowKeys[j] != {}
      decreases rest
    {
      var k :| k in rest;
      ghost var before, tried := candidates, rowKeys[i] - rest;
      var postings := if k in inverted then inverted[k] else [];
      assert forall j :: j in postings <==> Posted(inverted, k, j);
      for t := 0 to |postings|
        invariant forall j :: j in candidates <==> j in before || (j > i && j in postings[..t])
      {
        assert postings[..t + 1] == postings[..t] + [postings[t]];
        if postings[t] > i {
          candidates := candidates + {postings[t]};
        }
      }
      assert postings[..|postings|] == postings;
      rest := rest - {k};
      assert rowKeys[i] - rest == tried + {k};
      forall j | i < j < |rowKeys| ensures (tried + {k}) * rowKeys[j] != {} <==> tried * rowKeys[j] != {} || k in rowKeys[j] {
        assert (tried + {k}) * rowKeys[j] == tried * rowKeys[j] + (if k in rowKeys[j] then {k} else {});
      }
    }
  }

  /** Rows restricted to pairs whose names share a key. */
  lemma RowRestricted(casing: Casing, mat: seq<seq<real>>, names: seq<string>, threshold: real, i: nat, c: set<int>)
    requires |names| == |mat| && i < |mat|
    requires forall j :: j in c <==> i < j < |mat| && ShareKey(casing, names[i], names[j])
    ensures Select(Row(mat, threshold, i, |mat|), InSet(c)) == Select(Row(mat, threshold, i, |mat|), NamesShare(casing, names))
  {
    hide Dot, Row, ShareKey;
    RowMeaning(mat, threshold, i, |mat|);
    SelectAgree(Row(mat, threshold, i, |mat|), InSet(c), NamesShare(casing, names));
  }

  lemma {:induction false} SelectAgree<T>(s: seq<T>, f: T -> bool, g: T -> bool)
    requires forall t | t in s :: f(t) == g(t)
    ensures Select(s, f) == Select(s, g)
  {
    if s != [] {
      assert s[|s| - 1] in s;
      SelectAgree(s[..|s| - 1], f, g);
    }
  }

  lemma {:induction false} SelectConcat<T>(s: seq<T>, t: seq<T>, f: T -> bool)
    ensures Select(s + t, f) == Select(s, f) + Select(t, f)
    decreases t
  {
    if t == [] {
      assert s + t == s;
    } else {
      var front, last := t[..|t| - 1], t[|t| - 1];
      assert s + t == (s + front) + [last] && t == front + [last];
      SelectConcat(s, front, f);
      SelectPush(s + front, last, f);
      SelectPush(front, last, f);
    }
  }

  method AllKeys(casing: Casing, names: seq<string>) returns (rowKeys: seq<set<string>>)
    ensures |rowKeys| == |names|
    ensures forall i, key | 0 <= i < |names| :: key in rowKeys[i] <==> IsKey(casing, names[i], key)
  {
    hide IsKey;
    rowKeys := [];
    for i := 0 to |names|
      invariant |rowKeys| == i
      invariant forall j, key | 0 <= j < i :: key in rowKeys[j] <==> IsKey(casing, names[j], key)
    {
      var keys := NamePrefixKeys(casing, names[i]);
      rowKeys := rowKeys + [keys];
    }
  }

  lemma SharedKeys(casing: Casing, a: string, b: string, ka: set<string>, kb: set<string>)
    requires forall key :: key in ka <==> IsKey(casing, a, key)
    requires forall key :: key in kb <==> IsKey(casing, b, key)
    ensures ka * kb != {} <==> ShareKey(casing, a, b)
  {
    hide IsKey;
    if ka * kb != {} {
      var key :| key in ka * kb;
      assert IsKey(casing, a, key) && IsKey(casing, b, key);
    }
    if ShareKey(casing, a, b) {
      var key :| IsKey(casing, a, key) && IsKey(casing, b, key);
      assert key in ka * kb;
    }
  }

  /**
   The blocked path returns the all-pairs list filtered to pairs whose names share a key: same
   order, no repeats, nothing lost.
   */
  method ScoreBlocked(casing: Casing, mat: seq<seq<real>>, names: seq<string>, threshold: real) returns (results: seq<Scored>)
    requires |names| == |mat|
    ensures results == Select(AllPairs(mat, threshold), NamesShare(casing, names))
  {
    hide Dot, Row, ShareKey, IsKey;
    var rowKeys := AllKeys(casing, names);
    var inverted := Invert(rowKeys);
    ghost var share := NamesShare(casing, names);
    results := [];
    for i := 0 to |mat|
      invariant results == Select(Rows(mat, threshold, i), share)
    {
      var candidates := Candidates(inverted, rowKeys, i);
      forall j | i < j < |mat|
        ensures rowKeys[i] * rowKeys[j] != {} <==> ShareKey(casing, names[i], names[j])
      {
        SharedKeys(casing, names[i], names[j], rowKeys[i], rowKeys[j]);
      }
      var scored := ScoreCandidates(mat, threshold, i, candidates);
      RowRestricted(casing, mat, names, threshold, i, candidates);
      SelectConcat(Rows(mat, threshold, i), Row(mat, threshold, i, |mat|), share);
      results := results + scored;
    }
  }

  /** The entry point. */
  method BlockAndScorePairs(casing: Casing, mat: seq<seq<real>>, names: seq<string>, threshold: real, blocking: bool)
    returns (r: Result<seq<Scored>>)
    ensures r.ValueError? <==> |names| != |mat|
    ensures r.Ok? && !blocking ==> r.value == AllPairs(mat, threshold)
    ensures r.Ok? && blocking ==> r.value == Select(AllPairs(mat, threshold), NamesShare(casing, names))
  {
    if |names| != |mat| {
      return ValueError;
    }
    if |mat| < 2 {
      NoPairs(mat, threshold);
      return Ok([]);
    }
    if blocking {
      var results := ScoreBlocked(casing, mat, names, threshold);
      return Ok(results);
    }
    var results := ScoreAllPairs(mat, threshold);
    return Ok(results);
  }

  lemma NoPairs(mat: seq<seq<real>>, threshold: real)
    requires |mat| < 2
    ensures AllPairs(mat, threshold) == []
  {
    if |mat| == 1 {
      assert Row(mat, threshold, 0, 1) == [] && Rows(mat, threshold, 0) == [];
      assert Rows(mat, threshold, 1) == [];
    }
  }
}
