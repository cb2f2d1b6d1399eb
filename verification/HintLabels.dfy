/**
 Labels of keyboard hints.

 A label is a word of head characters followed by one tail character. The generator keeps the
 alphabet indices of the next label with the tail first, and counts up with a carry loop.
 */
module HintLabels {
  import opened Arithmetic

  /** Alphabet sizes: `tails` characters end a label, the other `heads` come before the end. */
  datatype Split = Split(tails: nat, heads: nat) {
    predicate Valid() { tails >= 1 && heads >= 1 }

    /** Indices of one label, tail first. */
    predicate IsWord(word: seq<nat>) {
      word != [] && word[0] < tails && AreHeads(word[1..])
    }

    predicate AreHeads(digits: seq<nat>) {
      forall i :: 0 <= i < |digits| ==> tails <= digits[i] < tails + heads
    }

    /** Number of head words that come before this one: numeration in base `heads` without a zero. */
    function HeadRank(digits: seq<nat>): nat
      requires AreHeads(digits)
    {
      if digits == [] then 0 else (digits[0] - tails + 1) + heads * HeadRank(digits[1..])
    }

    function Rank(word: seq<nat>): nat
      requires IsWord(word)
    {
      word[0] + tails * HeadRank(word[1..])
    }

    function HeadUnrank(n: nat): (digits: seq<nat>)
      requires Valid()
      ensures AreHeads(digits)
    {
      if n == 0 then [] else
        QuotientSmaller(n - 1, heads);
        [tails + (n - 1) % heads] + HeadUnrank((n - 1) / heads)
    }

    /** Indices of the k-th label. */
    function Unrank(k: nat): (word: seq<nat>)
      requires Valid()
      ensures IsWord(word)
    {
      [k % tails] + HeadUnrank(k / tails)
    }

    lemma {:induction false} HeadRankOfUnrank(n: nat)
      requires Valid()
      ensures HeadRank(HeadUnrank(n)) == n
      decreases n
    {
      if n > 0 {
        var q, r := (n - 1) / heads, (n - 1) % heads;
        QuotientSmaller(n - 1, heads);
        HeadRankOfUnrank(q);
        assert HeadUnrank(n)[1..] == HeadUnrank(q);
        DivModDefinition(n - 1, heads);
      }
    }

    lemma {:induction false} HeadUnrankOfRank(digits: seq<nat>)
      requires Valid() && AreHeads(digits)
      ensures HeadUnrank(HeadRank(digits)) == digits
    {
      if digits != [] {
        HeadUnrankOfRank(digits[1..]);
        DivModUnique(HeadRank(digits) - 1, heads, HeadRank(digits[1..]), digits[0] - tails);
        assert digits == [digits[0]] + digits[1..];
      }
    }

    /** The k-th word has rank k ... */
    lemma RankOfUnrank(k: nat)
      requires Valid()
      ensures Rank(Unrank(k)) == k
    {
      HeadRankOfUnrank(k / tails);
      assert Unrank(k)[1..] == HeadUnrank(k / tails);
    }

    /** ... and every word is one of them, so labels never repeat and every label appears. */
    lemma UnrankOfRank(word: seq<nat>)
      requires Valid() && IsWord(word)
      ensures Unrank(Rank(word)) == word
    {
      HeadUnrankOfRank(word[1..]);
      DivModUnique(Rank(word), tails, HeadRank(word[1..]), word[0]);
      assert word == [word[0]] + word[1..];
    }

    // ----- Shortlex order -----

    lemma {:induction false} LongerIsLater(a: seq<nat>, b: seq<nat>)
      requires Valid() && AreHeads(a) && AreHeads(b) && |a| < |b|
      ensures HeadRank(a) < HeadRank(b)
    {
      if a != [] {
        LongerIsLater(a[1..], b[1..]);
        MulStep(HeadRank(a[1..]), HeadRank(b[1..]), heads);
      }
    }

    lemma {:induction false} LexIsLater(a: seq<nat>, b: seq<nat>)
      requires Valid() && AreHeads(a) && AreHeads(b) && LexLess(a, b)
      ensures HeadRank(a) < HeadRank(b)
    {
      var i: nat :| DiffersAt(a, b, i);
      if i == 0 {
        assert a[1..] == b[1..];
      } else {
        assert DiffersAt(a[1..], b[1..], i - 1) by {
          assert a[1..][i..] == a[i + 1..] && b[1..][i..] == b[i + 1..];
        }
        LexIsLater(a[1..], b[1..]);
        MulStep(HeadRank(a[1..]), HeadRank(b[1..]), heads);
      }
    }

    lemma ShortlexIsLater(a: seq<nat>, b: seq<nat>)
      requires Valid() && IsWord(a) && IsWord(b) && Shortlex(a, b)
      ensures Rank(a) < Rank(b)
    {
      if |a| < |b| {
        LongerIsLater(a[1..], b[1..]);
        MulStep(HeadRank(a[1..]), HeadRank(b[1..]), tails);
      } else {
        var i: nat :| DiffersAt(a, b, i);
        if i == 0 {
          assert a[1..] == b[1..];
        } else {
          assert DiffersAt(a[1..], b[1..], i - 1) by {
            assert a[1..][i..] == a[i + 1..] && b[1..][i..] == b[i + 1..];
          }
          LexIsLater(a[1..], b[1..]);
          MulStep(HeadRank(a[1..]), HeadRank(b[1..]), tails);
        }
      }
    }

    /** Ranks order words exactly as shortlex does. */
    lemma RankIsShortlex(a: seq<nat>, b: seq<nat>)
      requires Valid() && IsWord(a) && IsWord(b)
      ensures Rank(a) < Rank(b) <==> Shortlex(a, b)
    {
      if Shortlex(a, b) {
        ShortlexIsLater(a, b);
      } else if Shortlex(b, a) {
        ShortlexIsLater(b, a);
      } else if |a| == |b| {
        LexTotal(a, b);
      }
    }
  }

  /** Words of equal length that agree above position i and are ordered there. */
  ghost predicate DiffersAt(a: seq<nat>, b: seq<nat>, i: nat) {
    i < |a| == |b| && a[i] < b[i] && a[i + 1..] == b[i + 1..]
  }

  /** Alphabetical order of the displayed labels, which show the last index first. */
  ghost predicate LexLess(a: seq<nat>, b: seq<nat>) {
    exists i: nat :: DiffersAt(a, b, i)
  }

  ghost predicate Shortlex(a: seq<nat>, b: seq<nat>) {
    |a| < |b| || LexLess(a, b)
  }

  lemma {:induction false} LexTotal(a: seq<nat>, b: seq<nat>)
    requires |a| == |b|
    ensures a == b || LexLess(a, b) || LexLess(b, a)
  {
    if a != [] {
      LexTotal(a[1..], b[1..]);
      if LexLess(a[1..], b[1..]) {
        LexPush(a, b);
      } else if LexLess(b[1..], a[1..]) {
        LexPush(b, a);
      } else {
        assert a == [a[0]] + a[1..] && b == [b[0]] + b[1..];
        assert a[0] < b[0] ==> DiffersAt(a, b, 0);
        assert b[0] < a[0] ==> DiffersAt(b, a, 0);
      }
    }
  }

  lemma LexPush(a: seq<nat>, b: seq<nat>)
    requires |a| == |b| > 0 && LexLess(a[1..], b[1..])
    ensures LexLess(a, b)
  {
    var i: nat :| DiffersAt(a[1..], b[1..], i);
    assert a[1..][i + 1..] == a[i + 2..] && b[1..][i + 1..] == b[i + 2..];
    assert DiffersAt(a, b, i + 1);
  }

  // ----- Arithmetic -----

  lemma QuotientSmaller(a: nat, b: nat)
    requires b >= 1
    ensures 0 <= a / b <= a
  {
    var q := a / b;
    assert a == q * b + a % b;
    assert q <= q * b by {
      MulLeft(q, 1, b);
    }
  }

  lemma MulLeft(q: nat, x: nat, y: nat)
    requires x <= y
    ensures q * x <= q * y
  {
  }

  lemma MulStep(a: nat, b: nat, h: nat)
    requires a < b
    ensures h * a + h <= h * b
  {
    MulLeft(h, a + 1, b);
  }

  // ----- Label texts -----

  predicate Distinct(alphabet: seq<char>) {
    forall i, j :: 0 <= i < j < |alphabet| ==> alphabet[i] != alphabet[j]
  }

  /** The split of an alphabet at half of its last index. */
  function SplitOf(alphabet: seq<char>): (split: Split)
    requires |alphabet| >= 2
    ensures split.Valid() && split.tails + split.heads == |alphabet|
  {
    var splitPoint := (|alphabet| - 1) / 2;
    Split(splitPoint + 1, |alphabet| - splitPoint - 1)
  }

  predicate InAlphabet(alphabet: seq<char>, word: seq<nat>) {
    forall i :: 0 <= i < |word| ==> word[i] < |alphabet|
  }

  function Text(alphabet: seq<char>, word: seq<nat>): (text: seq<char>)
    requires InAlphabet(alphabet, word)
    ensures |text| == |word|
  {
    seq(|word|, i requires 0 <= i < |word| => alphabet[word[|word| - 1 - i]])
  }

  lemma WordInAlphabet(alphabet: seq<char>, word: seq<nat>)
    requires |alphabet| >= 2 && SplitOf(alphabet).IsWord(word)
    ensures InAlphabet(alphabet, word)
  {
    forall i | 0 <= i < |word| ensures word[i] < |alphabet| {
      assert i > 0 ==> word[i] == word[1..][i - 1];
    }
  }

  /** The k-th label. */
  function Label(alphabet: seq<char>, k: nat): (text: seq<char>)
    requires |alphabet| >= 2
    ensures text != []
  {
    var word := SplitOf(alphabet).Unrank(k);
    WordInAlphabet(alphabet, word);
    Text(alphabet, word)
  }

  /** No label is a prefix of another label. */
  ghost predicate PrefixFree(alphabet: seq<char>)
    requires |alphabet| >= 2
  {
    forall j: nat, k: nat :: Label(alphabet, j) <= Label(alphabet, k) ==> j == k
  }

  lemma LabelPrefixUnique(alphabet: seq<char>, j: nat, k: nat)
    requires |alphabet| >= 2 && Distinct(alphabet)
    requires Label(alphabet, j) <= Label(alphabet, k)
    ensures j == k
  {
    var split := SplitOf(alphabet);
    var a, b := split.Unrank(j), split.Unrank(k);
    WordInAlphabet(alphabet, a);
    WordInAlphabet(alphabet, b);
    var shift := |b| - |a|;
    assert shift > 0 ==> b[shift] == b[1..][shift - 1] >= split.tails;
    forall i | 0 <= i < |a|
      ensures a[i] == b[i + shift]
    {
      assert Text(alphabet, a)[|a| - 1 - i] == Text(alphabet, b)[|a| - 1 - i];
    }
    assert a[0] == b[shift];
    assert a == b;
    split.RankOfUnrank(j);
    split.RankOfUnrank(k);
  }

  /** Two words of which one text starts with the other. */
  lemma WordsBreakPrefixes(alphabet: seq<char>, a: seq<nat>, b: seq<nat>)
    requires |alphabet| >= 2 && SplitOf(alphabet).IsWord(a) && SplitOf(alphabet).IsWord(b) && a != b
    requires InAlphabet(alphabet, a) && InAlphabet(alphabet, b)
    requires Text(alphabet, a) <= Text(alphabet, b)
    ensures !PrefixFree(alphabet)
  {
    var split := SplitOf(alphabet);
    split.UnrankOfRank(a);
    split.UnrankOfRank(b);
    assert Label(alphabet, split.Rank(a)) <= Label(alphabet, split.Rank(b));
  }

  /** Two positions with the same character give two labels of which one is a prefix of the other. */
  lemma DuplicateBreaksPrefixes(alphabet: seq<char>, i: nat, j: nat)
    requires |alphabet| >= 2 && i < j < |alphabet| && alphabet[i] == alphabet[j]
    ensures !PrefixFree(alphabet)
  {
    var tails := SplitOf(alphabet).tails;
    var a := if i < tails then [i] else [0, i];
    var b := if j < tails then [j] else [0, j];
    WordsBreakPrefixes(alphabet, a, b);
  }

  /** Labels are prefix-free exactly when the alphabet has no character twice. */
  lemma PrefixFreeIffDistinct(alphabet: seq<char>)
    requires |alphabet| >= 2
    ensures PrefixFree(alphabet) <==> Distinct(alphabet)
  {
    if Distinct(alphabet) {
      forall j: nat, k: nat | Label(alphabet, j) <= Label(alphabet, k) ensures j == k {
        LabelPrefixUnique(alphabet, j, k);
      }
    } else {
      var i, j :| 0 <= i < j < |alphabet| && alphabet[i] == alphabet[j];
      DuplicateBreaksPrefixes(alphabet, i, j);
    }
  }

  /** Labels come in shortlex order: the k-th label is the k-th word. */
  lemma LabelsInShortlexOrder(alphabet: seq<char>, j: nat, k: nat)
    requires |alphabet| >= 2
    ensures var split := SplitOf(alphabet);
            j < k <==> Shortlex(split.Unrank(j), split.Unrank(k))
  {
    var split := SplitOf(alphabet);
    split.RankOfUnrank(j);
    split.RankOfUnrank(k);
    split.RankIsShortlex(split.Unrank(j), split.Unrank(k));
  }

  // ----- The labels that are shown -----

  /** The two texts agree before position i and are ordered there, by place in the alphabet. */
  ghost predicate SmallerAt(alphabet: seq<char>, a: seq<char>, b: seq<char>, i: nat) {
    && i < |a| == |b| && a[..i] == b[..i]
    && exists p: nat, q: nat :: p < q < |alphabet| && alphabet[p] == a[i] && alphabet[q] == b[i]
  }

  ghost predicate TextBefore(alphabet: seq<char>, a: seq<char>, b: seq<char>) {
    |a| < |b| || exists i: nat :: SmallerAt(alphabet, a, b, i)
  }

  /** Indices that differ last at position i are texts that differ first at the mirrored position. */
  lemma DiffersInText(alphabet: seq<char>, a: seq<nat>, b: seq<nat>, i: nat)
    requires InAlphabet(alphabet, a) && InAlphabet(alphabet, b) && DiffersAt(a, b, i)
    ensures SmallerAt(alphabet, Text(alphabet, a), Text(alphabet, b), |a| - 1 - i)
  {
    var s, t, k := Text(alphabet, a), Text(alphabet, b), |a| - 1 - i;
    forall m | 0 <= m < k ensures s[m] == t[m] {
      var n := |a| - 1 - m;
      assert a[n] == a[i + 1..][n - i - 1] == b[i + 1..][n - i - 1] == b[n];
    }
    assert s[..k] == t[..k];
    assert s[k] == alphabet[a[i]] && t[k] == alphabet[b[i]];
  }

  lemma BeforeInText(alphabet: seq<char>, j: nat, k: nat)
    requires |alphabet| >= 2 && j < k
    ensures TextBefore(alphabet, Label(alphabet, j), Label(alphabet, k))
  {
    var split := SplitOf(alphabet);
    var a, b := split.Unrank(j), split.Unrank(k);
    LabelsInShortlexOrder(alphabet, j, k);
    WordInAlphabet(alphabet, a);
    WordInAlphabet(alphabet, b);
    if |a| >= |b| {
      var i: nat :| DiffersAt(a, b, i);
      DiffersInText(alphabet, a, b, i);
    }
  }

  /** Without repeated characters, two texts are ordered at most one way. */
  lemma TextBeforeOneWay(alphabet: seq<char>, a: seq<char>, b: seq<char>)
    requires Distinct(alphabet) && TextBefore(alphabet, a, b)
    ensures !TextBefore(alphabet, b, a) && a != b
  {
    if |a| == |b| {
      var i: nat :| SmallerAt(alphabet, a, b, i);
      assert a[i] != b[i];
      forall j: nat ensures !SmallerAt(alphabet, b, a, j) {
        NotAlsoLarger(alphabet, a, b, i, j);
      }
    }
  }

  lemma NotAlsoLarger(alphabet: seq<char>, a: seq<char>, b: seq<char>, i: nat, j: nat)
    requires Distinct(alphabet) && SmallerAt(alphabet, a, b, i)
    ensures !SmallerAt(alphabet, b, a, j)
  {
    assert a[i] != b[i];
    if j < i {
      assert a[..i][j] == b[..i][j];
    } else if i < j < |a| {
      assert b[..j][i] != a[..j][i];
    }
  }

  /**
   The labels that are shown come in order: shorter ones first, and those of one length alphabetically,
   by the first character in which they differ.
   */
  lemma LabelTextsInOrder(alphabet: seq<char>, j: nat, k: nat)
    requires |alphabet| >= 2 && Distinct(alphabet)
    ensures j < k <==> TextBefore(alphabet, Label(alphabet, j), Label(alphabet, k))
  {
    if j < k {
      BeforeInText(alphabet, j, k);
    } else if k < j {
      BeforeInText(alphabet, k, j);
      TextBeforeOneWay(alphabet, Label(alphabet, k), Label(alphabet, j));
    } else if TextBefore(alphabet, Label(alphabet, j), Label(alphabet, k)) {
      TextBeforeOneWay(alphabet, Label(alphabet, j), Label(alphabet, k));
    }
  }

  /** The character is one of the first half of the alphabet, which end a label ... */
  predicate IsTail(alphabet: seq<char>, c: char) {
    exists p :: 0 <= p < |alphabet| && p <= (|alphabet| - 1) / 2 && alphabet[p] == c
  }

  /** ... or one of the others, which come before the end. */
  predicate IsHead(alphabet: seq<char>, c: char) {
    exists p :: 0 <= p < |alphabet| && p > (|alphabet| - 1) / 2 && alphabet[p] == c
  }

  predicate IsLabelText(alphabet: seq<char>, text: seq<char>) {
    && text != [] && IsTail(alphabet, text[|text| - 1])
    && forall i :: 0 <= i < |text| - 1 ==> IsHead(alphabet, text[i])
  }

  /** Every label is some heads and one tail. */
  lemma LabelIsLabelText(alphabet: seq<char>, k: nat)
    requires |alphabet| >= 2
    ensures IsLabelText(alphabet, Label(alphabet, k))
  {
    var split := SplitOf(alphabet);
    var word := split.Unrank(k);
    WordInAlphabet(alphabet, word);
    var text := Label(alphabet, k);
    assert text[|text| - 1] == alphabet[word[0]];
    forall i | 0 <= i < |text| - 1 ensures IsHead(alphabet, text[i]) {
      var n := |word| - 1 - i;
      assert word[n] == word[1..][n - 1] >= split.tails;
      assert text[i] == alphabet[word[n]];
    }
  }

  /** The indices of a text of heads and one tail. */
  lemma {:induction false} HeadIndices(alphabet: seq<char>, heads: seq<char>) returns (digits: seq<nat>)
    requires |alphabet| >= 2 && forall i :: 0 <= i < |heads| ==> IsHead(alphabet, heads[i])
    ensures SplitOf(alphabet).AreHeads(digits) && |digits| == |heads|
    ensures forall i :: 0 <= i < |heads| ==> alphabet[digits[|heads| - 1 - i]] == heads[i]
  {
    digits := [];
    for n := 0 to |heads|
      invariant SplitOf(alphabet).AreHeads(digits) && |digits| == n
      invariant forall i :: 0 <= i < n ==> alphabet[digits[n - 1 - i]] == heads[i]
    {
      assert IsHead(alphabet, heads[n]);
      var p :| 0 <= p < |alphabet| && p > (|alphabet| - 1) / 2 && alphabet[p] == heads[n];
      digits := [p] + digits;
    }
  }

  /** Every text of heads and one tail is a label. */
  lemma EveryLabelTextAppears(alphabet: seq<char>, text: seq<char>) returns (k: nat)
    requires |alphabet| >= 2 && IsLabelText(alphabet, text)
    ensures Label(alphabet, k) == text
  {
    var split, n := SplitOf(alphabet), |text|;
    var tail :| 0 <= tail < |alphabet| && tail <= (|alphabet| - 1) / 2 && alphabet[tail] == text[n - 1];
    var digits := HeadIndices(alphabet, text[..n - 1]);
    var word := [tail] + digits;
    assert word[1..] == digits;
    split.UnrankOfRank(word);
    WordInAlphabet(alphabet, word);
    k := split.Rank(word);
    forall i | 0 <= i < n ensures Label(alphabet, k)[i] == text[i] {
      if i < n - 1 {
        assert word[n - 1 - i] == digits[n - 2 - i];
        assert text[..n - 1][i] == text[i];
      }
    }
  }

  // ----- The generator -----

  lemma MulPlusOne(h: nat, n: nat)
    ensures h * (n + 1) == h * n + h
  {
  }

  /** Digits before position i are at their last character in `old` and at their first in `new`. */
  predicate Carried(split: Split, digits: seq<nat>, next: seq<nat>, i: nat)
    requires i <= |digits| <= |next|
  {
    forall k :: 0 <= k < i ==> digits[k] + 1 == split.tails + split.heads && next[k] == split.tails
  }

  /** Incrementing head i after a carry through the heads before it. */
  lemma {:induction false} CarryStops(split: Split, digits: seq<nat>, next: seq<nat>, i: nat)
    requires split.Valid() && split.AreHeads(digits)
    requires i < |digits| == |next| && Carried(split, digits, next, i)
    requires digits[i] + 1 < split.tails + split.heads && next[i] == digits[i] + 1
    requires forall k :: i < k < |digits| ==> next[k] == digits[k]
    ensures split.AreHeads(next) && split.HeadRank(next) == split.HeadRank(digits) + 1
  {
    if i == 0 {
      assert next[1..] == digits[1..];
    } else {
      CarryStops(split, digits[1..], next[1..], i - 1);
      MulPlusOne(split.heads, split.HeadRank(digits[1..]));
      HeadsCons(split, next);
    }
  }

  /** A carry through all heads adds one more head. */
  lemma {:induction false} CarryExtends(split: Split, digits: seq<nat>, next: seq<nat>)
    requires split.Valid() && split.AreHeads(digits) && |next| == |digits| + 1
    requires Carried(split, digits, next, |digits|) && next[|digits|] == split.tails
    ensures split.AreHeads(next) && split.HeadRank(next) == split.HeadRank(digits) + 1
  {
    if digits == [] {
      assert next[1..] == [];
    } else {
      CarryExtends(split, digits[1..], next[1..]);
      MulPlusOne(split.heads, split.HeadRank(digits[1..]));
      HeadsCons(split, next);
    }
  }

  lemma HeadsCons(split: Split, digits: seq<nat>)
    requires digits != [] && split.tails <= digits[0] < split.tails + split.heads
    requires split.AreHeads(digits[1..])
    ensures split.AreHeads(digits)
  {
    assert digits == [digits[0]] + digits[1..];
  }

  /** When the tail wraps around, the next head word is one more step. */
  lemma CarryIntoHeads(split: Split, word: seq<nat>, next: seq<nat>)
    requires split.Valid() && split.IsWord(word) && word[0] + 1 == split.tails
    requires next != [] && next[0] == 0 && split.AreHeads(next[1..])
    requires split.HeadRank(next[1..]) == split.HeadRank(word[1..]) + 1
    ensures split.IsWord(next) && split.Rank(next) == split.Rank(word) + 1
  {
    MulPlusOne(split.tails, split.HeadRank(word[1..]));
  }

  class Generator {
    const alphabet: seq<char>
    const splitPoint: nat
    var indices: seq<nat>

    ghost predicate Valid()
      reads this
    {
      && |alphabet| >= 2
      && splitPoint + 1 == SplitOf(alphabet).tails
      && SplitOf(alphabet).IsWord(indices)
    }

    /** How many labels have been generated. */
    ghost function Count(): nat
      reads this
      requires Valid()
    {
      SplitOf(alphabet).Rank(indices)
    }

    constructor (alphabet: seq<char>)
      requires |alphabet| >= 2
      ensures this.alphabet == alphabet && Valid() && Count() == 0
    {
      this.alphabet := alphabet;
      splitPoint := (|alphabet| - 1) / 2;
      indices := [0];
    }

    /** The n-th call returns the n-th label. */
    method Next() returns (text: seq<char>)
      requires Valid()
      modifies this
      ensures Valid() && Count() == old(Count()) + 1
      ensures text == Label(alphabet, old(Count()))
    {
      WordInAlphabet(alphabet, indices);
      SplitOf(alphabet).UnrankOfRank(indices);
      text := Text(alphabet, indices);
      Increment();
    }

    method Increment()
      requires Valid()
      modifies this
      ensures Valid() && Count() == old(Count()) + 1
    {
      if indices[0] < splitPoint {
        assert indices[0 := indices[0] + 1][1..] == indices[1..];
        indices := indices[0 := indices[0] + 1];
        return;
      }
      ghost var split, word := SplitOf(alphabet), indices;
      indices := indices[0 := 0];

      for i := 1 to |indices|
        invariant |indices| == |word| && indices[0] == 0
        invariant Carried(split, word[1..], indices[1..], i - 1)
        invariant forall k :: i <= k < |word| ==> indices[k] == word[k]
      {
        if indices[i] + 1 == |alphabet| {
          indices := indices[i := splitPoint + 1];
        } else {
          assert word[i] == word[1..][i - 1];
          indices := indices[i := indices[i] + 1];
          CarryStops(split, word[1..], indices[1..], i - 1);
          CarryIntoHeads(split, word, indices);
          return;
        }
      }

      indices := indices + [splitPoint + 1];
      CarryExtends(split, word[1..], indices[1..]);
      CarryIntoHeads(split, word, indices);
    }
  }
}
