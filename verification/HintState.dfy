/** Typing hint labels: which match a sequence of key presses selects. */
module HintState {
  import opened Content
  import opened HintLabels
  import opened HintMatches

  /** Backspace and the unit separator remove a key; ESC and Ctrl+C leave hint mode. */
  predicate IsErase(c: char) { c == '\U{08}' || c == '\U{1f}' }

  predicate IsCancel(c: char) { c == '\U{1b}' || c == '\U{03}' }

  predicate IsControl(c: char) { IsErase(c) || IsCancel(c) }

  /** Hint alphabets are validated: at least two characters, all of width one, so no controls. */
  predicate ValidAlphabet(alphabet: seq<char>) {
    |alphabet| >= 2 && forall i :: 0 <= i < |alphabet| ==> !IsControl(alphabet[i])
  }

  datatype Hint = Hint(persist: bool)

  /** What a key press depends on besides the visible matches. */
  datatype State = State(alphabet: seq<char>, hint: Option<Hint>, keys: seq<char>)

  /** The labels of n matches, given out from the last match to the first. */
  function LabelTable(alphabet: seq<char>, n: nat): (table: seq<seq<char>>)
    requires |alphabet| >= 2
    ensures |table| == n
  {
    if n == 0 then [] else [Label(alphabet, n - 1)] + LabelTable(alphabet, n - 1)
  }

  /** The part of a label that is still to be typed, or nothing if other keys were typed. */
  function Remaining(keys: seq<char>, text: seq<char>): seq<char> {
    if keys <= text then text[|keys|..] else []
  }

  /** The last of the first n matches that the typed word can still reach. */
  function LastReachable(table: seq<seq<char>>, typed: seq<char>, n: nat): (found: Option<nat>)
    requires n <= |table|
    ensures found.None? ==> forall i :: 0 <= i < n ==> !(typed <= table[i])
    ensures found.Some? ==>
              && found.value < n && typed <= table[found.value]
              && forall i :: found.value < i < n ==> !(typed <= table[i])
  {
    if n == 0 then None
    else if typed <= table[n - 1] then Some(n - 1)
    else LastReachable(table, typed, n - 1)
  }

  /** The state after backspace, ESC or any other character, before labels are looked at. */
  function AfterControl(s: State, c: char): State {
    if IsErase(c) && s.keys != [] then s.(keys := s.keys[..|s.keys| - 1])
    else if IsCancel(c) then s.(hint := None, keys := [])
    else s
  }

  function Stopped(s: State): State {
    s.(hint := None, keys := [])
  }

  /** One key press when the visible matches have these labels: the next state and the selection. */
  function KeyPress(s: State, table: seq<seq<char>>, c: char): (State, Option<nat>) {
    var s1 := AfterControl(s, c);
    if s1.hint.None? then (s1, None)
    else if table == [] then (Stopped(s1), None)
    else
      var typed := s1.keys + [c];
      match LastReachable(table, typed, |table|)
      case None => (s1, None)
      case Some(i) =>
        if table[i] == typed then
          (if s1.hint.value.persist then s1.(keys := []) else Stopped(s1), Some(i))
        else (s1.(keys := typed), None)
  }

  class HintState {
    var alphabet: seq<char>
    var hint: Option<Hint>
    var matches: seq<Match>
    var labels: seq<seq<char>>
    var keys: seq<char>

    ghost function View(): State
      reads this
    {
      State(alphabet, hint, keys)
    }

    constructor (alphabet: seq<char>)
      ensures View() == State(alphabet, None, [])
    {
      this.alphabet := alphabet;
      hint, matches, labels, keys := None, [], [], [];
    }

    method Stop()
      modifies this
      ensures View() == old(View()).(hint := None, keys := [])
      ensures matches == [] && labels == []
    {
      matches, labels, keys, hint := [], [], [], None;
    }

    /** `found` are the hyperlinks and regex matches on screen, as they are found. */
    method UpdateMatches(found: seq<Match>)
      requires |alphabet| >= 2
      modifies this
      ensures View() == if old(hint).Some? && found == [] then Stopped(old(View()))
                        else old(View())
      ensures hint.Some? ==>
                && matches == Visible(found) != []
                && ShowsRemaining(LabelTable(alphabet, |Visible(found)|))
      ensures hint.None? ==> if old(hint).None? then matches == old(matches) && labels == old(labels)
                             else matches == [] && labels == []
    {
      if hint.None? {
        return;
      }
      matches := found;
      if matches == [] {
        Stop();
        return;
      }
      VisibleMatches(found);
      matches := Dedup(Sort(matches));
      LabelMatches();
    }

    /** Gives labels to the matches, from the last to the first. */
    method LabelMatches()
      requires |alphabet| >= 2
      modifies this`labels
      ensures ShowsRemaining(LabelTable(alphabet, |matches|))
    {
      var generator := new Generator(alphabet);
      var count := |matches|;
      ghost var table := LabelTable(alphabet, count);
      labels := seq(count, _ => []);
      var i := count;
      while i > 0
        invariant generator.Valid() && fresh(generator)
        invariant generator.alphabet == alphabet && generator.Count() == count - i
        invariant 0 <= i <= count == |labels|
        invariant forall k :: i <= k < count ==> labels[k] == Remaining(keys, table[k])
      {
        i := i - 1;
        var rest := NextRemaining(generator, count, i);
        labels := labels[i := rest];
      }
    }

    /** What is still to be typed of the next label, which belongs to match i. */
    method NextRemaining(generator: Generator, ghost count: nat, ghost i: nat) returns (rest: seq<char>)
      requires generator.Valid() && i < count && generator.Count() == count - 1 - i
      modifies generator
      ensures generator.Valid() && generator.Count() == count - i
      ensures rest == Remaining(keys, LabelTable(generator.alphabet, count)[i])
    {
      var text := generator.Next();
      LabelTableAt(generator.alphabet, count, i);
      if |text| >= |keys| && text[..|keys|] == keys {
        rest := text[|keys|..];
      } else {
        rest := [];
      }
    }

    ghost predicate ShowsRemaining(table: seq<seq<char>>)
      reads this
    {
      |labels| == |table| && forall k :: 0 <= k < |table| ==> labels[k] == Remaining(keys, table[k])
    }

    /** The selected match is returned with its index, which the program does not need. */
    method KeyboardInput(found: seq<Match>, c: char)
      returns (selected: Option<nat>, bounds: Option<Match>)
      requires |alphabet| >= 2
      modifies this
      ensures (View(), selected) == KeyPress(old(View()), LabelTable(old(alphabet), |Visible(found)|), c)
      ensures selected.Some? ==> selected.value < |Visible(found)|
      ensures bounds == if selected.Some? then Some(Visible(found)[selected.value]) else None
    {
      ghost var table := LabelTable(alphabet, |Visible(found)|);
      selected, bounds := None, None;
      if IsErase(c) {
        if keys != [] {
          keys := keys[..|keys| - 1];
        }
      } else if IsCancel(c) {
        Stop();
      }
      ghost var typed := keys + [c];
      assert View() == AfterControl(old(View()), c);
      VisibleMatches(found);
      UpdateMatches(found);
      if hint.None? {
        return;
      }

      var hit := FindLabel(c, table);
      if hit.None? {
        return;
      }
      var index := hit.value;
      StillReachable(keys, table[index], c);
      if |labels[index]| == 1 {
        assert labels[index] == [c];
        selected, bounds := Some(index), Some(matches[index]);
        if hint.value.persist {
          keys := [];
        } else {
          Stop();
        }
      } else {
        keys := keys + [c];
      }
    }

    /** The last match that the typed keys and c can still reach, found by what its label has left. */
    method FindLabel(c: char, ghost table: seq<seq<char>>) returns (found: Option<nat>)
      requires ShowsRemaining(table)
      ensures found == LastReachable(table, keys + [c], |table|)
      ensures found.Some? ==> found.value < |labels| && labels[found.value] != []
                              && labels[found.value][0] == c
    {
      ghost var typed := keys + [c];
      var i := |labels|;
      while i > 0
        invariant 0 <= i <= |labels|
        invariant LastReachable(table, typed, |table|) == LastReachable(table, typed, i)
      {
        i := i - 1;
        NextReachable(table, keys, c, i, labels[i]);
        if labels[i] != [] && labels[i][0] == c {
          return Some(i);
        }
      }
      return None;
    }
  }

  /** Looking at one more label from the end, of which `rest` is still to be typed. */
  lemma NextReachable(table: seq<seq<char>>, keys: seq<char>, c: char, i: nat, rest: seq<char>)
    requires i < |table| && rest == Remaining(keys, table[i])
    ensures LastReachable(table, keys + [c], i + 1)
         == if rest != [] && rest[0] == c then Some(i) else LastReachable(table, keys + [c], i)
  {
    StillReachable(keys, table[i], c);
  }

  lemma {:induction false} LabelTableAt(alphabet: seq<char>, n: nat, i: nat)
    requires |alphabet| >= 2 && i < n
    ensures LabelTable(alphabet, n)[i] == Label(alphabet, n - 1 - i)
  {
    if i > 0 {
      LabelTableAt(alphabet, n - 1, i - 1);
    }
  }

  lemma StillReachable(keys: seq<char>, text: seq<char>, c: char)
    ensures keys + [c] <= text <==> Remaining(keys, text) != [] && Remaining(keys, text)[0] == c
    ensures Remaining(keys, text) == [c] <==> text == keys + [c]
    ensures keys + [c] <= text ==> c in text
  {
    if keys <= text {
      assert text == keys + text[|keys|..];
    }
  }

  // ----- Whole words -----

  /** Key presses with unchanged matches: the last state, and what each of them selected. */
  function Typing(s: State, table: seq<seq<char>>, word: seq<char>): (State, seq<Option<nat>>) {
    if word == [] then (s, []) else
      var (mid, selected) := Typing(s, table, word[..|word| - 1]);
      var (s', last) := KeyPress(mid, table, word[|word| - 1]);
      (s', selected + [last])
  }

  /** k key presses that select nothing. */
  function Nothing(k: nat): seq<Option<nat>> {
    seq(k, _ => None)
  }

  predicate NoLabelIsPrefix(table: seq<seq<char>>) {
    forall i, j :: 0 <= i < |table| && 0 <= j < |table| && table[i] <= table[j] ==> i == j
  }

  /** A character that continues no label changes nothing. */
  lemma UnmatchedCharacterIsIgnored(s: State, table: seq<seq<char>>, c: char)
    requires s.hint.Some? && table != [] && !IsControl(c)
    requires forall i :: 0 <= i < |table| ==> !(s.keys + [c] <= table[i])
    ensures KeyPress(s, table, c) == (s, None)
  {
  }

  /** Erasing takes back the last character that was accepted. */
  lemma EraseUndoesKey(s: State, table: seq<seq<char>>, c: char, erase: char)
    requires s.hint.Some? && table != [] && !IsControl(c) && IsErase(erase)
    requires forall i :: 0 <= i < |table| ==> erase !in table[i]
    requires KeyPress(s, table, c) == (s.(keys := s.keys + [c]), None)
    ensures KeyPress(s.(keys := s.keys + [c]), table, erase) == (s, None)
  {
    assert (s.keys + [c])[..|s.keys|] == s.keys;
    forall i | 0 <= i < |table| ensures !(s.keys + [erase] <= table[i]) {
      StillReachable(s.keys, table[i], erase);
    }
  }

  /** ESC and Ctrl+C leave hint mode and forget the keys, whatever is on screen. */
  lemma CancelLeavesHintMode(s: State, table: seq<seq<char>>, c: char)
    requires c == '\U{1b}' || c == '\U{03}'
    ensures KeyPress(s, table, c) == (s.(hint := None, keys := []), None)
  {
  }

  /** Backspace and the unit separator remove the last key, if there is one. */
  lemma BackspaceRemovesKey(s: State, table: seq<seq<char>>, c: char)
    requires s.hint.Some? && table != [] && (c == '\U{08}' || c == '\U{1f}')
    requires forall i :: 0 <= i < |table| ==> c !in table[i]
    ensures KeyPress(s, table, c)
         == (if s.keys == [] then s else s.(keys := s.keys[..|s.keys| - 1]), None)
  {
    forall i, keys: seq<char> | 0 <= i < |table| ensures !(keys + [c] <= table[i]) {
      StillReachable(keys, table[i], c);
    }
  }

  /** Without matches on screen any key leaves hint mode, and outside of it no key selects anything. */
  lemma NoMatchesNoHints(s: State, table: seq<seq<char>>, c: char)
    requires s.hint.None? || table == []
    ensures KeyPress(s, table, c).0.hint == None && KeyPress(s, table, c).1 == None
    ensures s.hint.Some? ==> KeyPress(s, table, c).0 == s.(hint := None, keys := [])
  {
  }

  /** One key of the label of match i, after the keys before it. */
  lemma NextKey(s: State, table: seq<seq<char>>, i: nat, k: nat)
    requires NoLabelIsPrefix(table) && s.hint.Some? && i < |table|
    requires k < |table[i]| && s.keys == table[i][..k] && !IsControl(table[i][k])
    ensures KeyPress(s, table, table[i][k])
         == if k + 1 < |table[i]| then (s.(keys := table[i][..k + 1]), None)
            else (if s.hint.value.persist then s.(keys := []) else Stopped(s), Some(i))
  {
    var typed := s.keys + [table[i][k]];
    assert typed == table[i][..k + 1];
    var j := LastReachable(table, typed, |table|).value;
    assert table[j] == typed ==> table[j] <= table[i];
    assert k + 1 == |table[i]| ==> table[i] <= table[j];
  }

  lemma {:induction false} TypingPrefix(s: State, table: seq<seq<char>>, i: nat, k: nat)
    requires NoLabelIsPrefix(table) && s.hint.Some? && s.keys == []
    requires i < |table| && k < |table[i]| && forall c :: c in table[i] ==> !IsControl(c)
    ensures Typing(s, table, table[i][..k]) == (s.(keys := table[i][..k]), Nothing(k))
  {
    var word := table[i][..k];
    if k == 0 {
      assert word == [] && Nothing(0) == [];
    } else {
      TypingPrefix(s, table, i, k - 1);
      assert word[..k - 1] == table[i][..k - 1];
      NextKey(s.(keys := table[i][..k - 1]), table, i, k - 1);
      assert Nothing(k - 1) + [None] == Nothing(k);
    }
  }

  /**
   Typing the label of match i, with the same n matches visible all along, selects nothing before
   the last character, and match i with it.
   */
  lemma TypingSelectsMatch(s: State, n: nat, i: nat)
    requires ValidAlphabet(s.alphabet) && Distinct(s.alphabet) && s.hint.Some? && s.keys == []
    requires i < n
    ensures var table := LabelTable(s.alphabet, n);
            && table[i] != []
            && Typing(s, table, table[i])
               == (if s.hint.value.persist then s else Stopped(s),
                   Nothing(|table[i]| - 1) + [Some(i)])
  {
    var table := LabelTable(s.alphabet, n);
    TableIsPrefixFree(s.alphabet, n);
    LabelTableAt(s.alphabet, n, i);
    LabelCharacters(s.alphabet, n - 1 - i);
    var k := |table[i]| - 1;
    TypingPrefix(s, table, i, k);
    NextKey(s.(keys := table[i][..k]), table, i, k);
  }

  /** Typing the label of match i among n selects nothing before its last character, and i with it. */
  predicate Selects(s: State, n: nat, i: nat)
    requires |s.alphabet| >= 2 && i < n
  {
    var table := LabelTable(s.alphabet, n);
    table[i] != [] && Typing(s, table, table[i]).1 == Nothing(|table[i]| - 1) + [Some(i)]
  }

  /** What the first m keys select does not depend on the keys after them. */
  lemma {:induction false} TypingSelections(s: State, table: seq<seq<char>>, word: seq<char>, m: nat)
    requires m <= |word|
    ensures |Typing(s, table, word).1| == |word|
    ensures Typing(s, table, word[..m]).1 == Typing(s, table, word).1[..m]
  {
    if m == |word| {
      assert word[..m] == word;
      if word != [] {
        TypingSelections(s, table, word[..|word| - 1], |word| - 1);
      }
    } else {
      TypingSelections(s, table, word[..|word| - 1], m);
      assert word[..|word| - 1][..m] == word[..m];
    }
  }

  /** Of two labels of which one starts with the other, one cannot be typed. */
  lemma PrefixCannotBeTyped(s: State, n: nat, i: nat, j: nat)
    requires |s.alphabet| >= 2 && i < n && j < n && i != j
    requires LabelTable(s.alphabet, n)[i] <= LabelTable(s.alphabet, n)[j]
    ensures !Selects(s, n, i) || !Selects(s, n, j)
  {
    var table := LabelTable(s.alphabet, n);
    var short, long := table[i], table[j];
    assert long[..|short|] == short;
    TypingSelections(s, table, long, |short|);
    TypingSelections(s, table, short, |short|);
    SelectionsDiffer(Typing(s, table, short).1, Typing(s, table, long).1, i, j);
  }

  lemma SelectionsDiffer(short: seq<Option<nat>>, long: seq<Option<nat>>, i: nat, j: nat)
    requires |short| <= |long| && short == long[..|short|] && i != j
    ensures short == [] || short != Nothing(|short| - 1) + [Some(i)]
            || long != Nothing(|long| - 1) + [Some(j)]
  {
    if short != [] && short[|short| - 1] == Some(i) {
      assert long[|short| - 1] == Some(i);
      assert (Nothing(|long| - 1) + [Some(j)])[|short| - 1] != Some(i);
    }
  }

  lemma PrefixBreaksTyping(s: State, j: nat, k: nat) returns (n: nat, i: nat)
    requires |s.alphabet| >= 2 && j != k && Label(s.alphabet, j) <= Label(s.alphabet, k)
    ensures i < n && !Selects(s, n, i)
  {
    n := 1 + if j < k then k else j;
    LabelTableAt(s.alphabet, n, n - 1 - j);
    LabelTableAt(s.alphabet, n, n - 1 - k);
    PrefixCannotBeTyped(s, n, n - 1 - j, n - 1 - k);
    i := if Selects(s, n, n - 1 - j) then n - 1 - k else n - 1 - j;
  }

  /** An alphabet with a character twice has a match that cannot be selected. */
  lemma DuplicateCannotBeTyped(s: State) returns (n: nat, i: nat)
    requires |s.alphabet| >= 2 && !Distinct(s.alphabet)
    ensures i < n && !Selects(s, n, i)
  {
    var j, k := SomePrefix(s.alphabet);
    n, i := PrefixBreaksTyping(s, j, k);
  }

  lemma SomePrefix(alphabet: seq<char>) returns (j: nat, k: nat)
    requires |alphabet| >= 2 && !Distinct(alphabet)
    ensures j != k && Label(alphabet, j) <= Label(alphabet, k)
  {
    PrefixFreeIffDistinct(alphabet);
    j, k :| Label(alphabet, j) <= Label(alphabet, k) && j != k;
  }

  lemma SelectsWhenDistinct(s: State, n: nat, i: nat)
    requires ValidAlphabet(s.alphabet) && Distinct(s.alphabet) && s.hint.Some? && s.keys == []
    requires i < n
    ensures Selects(s, n, i)
  {
    TypingSelectsMatch(s, n, i);
  }

  /** Every match can be selected by typing its label exactly when the alphabet has no character twice. */
  lemma TypingWorksIffDistinct(s: State)
    requires ValidAlphabet(s.alphabet) && s.hint.Some? && s.keys == []
    ensures (forall n: nat, i: nat :: i < n ==> Selects(s, n, i)) <==> Distinct(s.alphabet)
  {
    if Distinct(s.alphabet) {
      forall n: nat, i: nat | i < n ensures Selects(s, n, i) {
        SelectsWhenDistinct(s, n, i);
      }
    } else {
      var n, i := DuplicateCannotBeTyped(s);
    }
  }

  lemma TableIsPrefixFree(alphabet: seq<char>, n: nat)
    requires |alphabet| >= 2 && Distinct(alphabet)
    ensures NoLabelIsPrefix(LabelTable(alphabet, n))
  {
    var table := LabelTable(alphabet, n);
    forall i, j | 0 <= i < n && 0 <= j < n && table[i] <= table[j] ensures i == j {
      EntriesPrefixFree(alphabet, n, i, j);
    }
  }

  lemma EntriesPrefixFree(alphabet: seq<char>, n: nat, i: nat, j: nat)
    requires |alphabet| >= 2 && Distinct(alphabet) && i < n && j < n
    requires LabelTable(alphabet, n)[i] <= LabelTable(alphabet, n)[j]
    ensures i == j
  {
    LabelTableAt(alphabet, n, i);
    LabelTableAt(alphabet, n, j);
    LabelPrefixUnique(alphabet, n - 1 - i, n - 1 - j);
  }

  lemma LabelCharacters(alphabet: seq<char>, k: nat)
    requires |alphabet| >= 2
    ensures forall c :: c in Label(alphabet, k) ==> c in alphabet
  {
    WordInAlphabet(alphabet, SplitOf(alphabet).Unrank(k));
  }

  /**
   Without distinct characters this fails: with the alphabet "jj" and two matches, the first key of
   the label "jj" of match 0 already selects match 1.
   */
  lemma DuplicateAlphabetSelectsWrongMatch(s: State)
    requires s == State("jj", Some(Hint(false)), [])
    ensures ValidAlphabet(s.alphabet)
    ensures var table := LabelTable(s.alphabet, 2);
            table[0] == "jj" && KeyPress(s, table, 'j') == (Stopped(s), Some(1))
  {
    ShortLabels();
    DuplicateAlphabetIsValid();
    LabelTableAt("jj", 2, 0);
    LabelTableAt("jj", 2, 1);
    var table := LabelTable("jj", 2);
    assert s.keys + ['j'] == "j";
    assert "j" <= table[1];
  }

  lemma DuplicateAlphabetIsValid()
    ensures ValidAlphabet("jj")
  {
    assert "jj"[0] == 'j' && "jj"[1] == 'j';
  }

  lemma ShortLabels()
    ensures Label("jj", 0) == "j" && Label("jj", 1) == "jj"
  {
    var split := SplitOf("jj");
    assert split == Split(1, 1);
    assert split.HeadUnrank(0) == [];
    assert split.HeadUnrank(1) == [1] + split.HeadUnrank(0);
    assert split.Unrank(0) == [0] && split.Unrank(1) == [0, 1];
  }
}
