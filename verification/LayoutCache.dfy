/**
 The text system's layout cache and its memo of characters whose font fallbacks have been checked.

 Shaping, font coverage and the font library's fallback collection are parameters. Of the collection
 it is only assumed that it reports every change, that it keeps the families it has, and that it has
 the families it was given.
 */
module LayoutCache {
  import opened Content

  type FamilyId = nat

  type Text = seq<char>

  /** A script, with the locale when the library tracks the pair. */
  datatype FallbackKey = FallbackKey(script: nat, locale: Option<Text>)

  type Fallbacks = map<FallbackKey, seq<FamilyId>>

  datatype TextKey = Char(character: char) | String(text: Text) {
    function Contents(): Text {
      if Char? then [character] else text
    }
  }

  datatype LayoutKey = LayoutKey(text: TextKey, variant: FontVariant, fontSizeBits: nat)

  function Families(table: Fallbacks, key: FallbackKey): seq<FamilyId> {
    if key in table then table[key] else []
  }

  /** The font library. */
  datatype Library<!Font, !Layout> = Library(
    scriptOf: char -> Option<nat>,
    tracked: FallbackKey -> bool,
    locale: Option<Text>,
    supports: (FamilyId, Text) -> bool,
    searchFamilies: seq<FamilyId>,
    sample: nat -> Option<Text>,
    append: (Fallbacks, FallbackKey, seq<FamilyId>) -> (Fallbacks, bool),
    sizeBits: Font -> nat,
    measure: (Font, Fallbacks) -> nat,
    build: (Font, nat, Fallbacks, Text, FontVariant) -> Layout)
  {
    ghost predicate Sound() {
      forall table: Fallbacks, key: FallbackKey, families: seq<FamilyId> {:trigger append(table, key, families)} ::
        var (after, changed) := append(table, key, families);
        && (!changed ==> after == table)
        && Grows(table, after)
        && forall f :: f in families ==> f in Families(after, key)
    }

    /** `fallback_key_for_char`: the key of the locale, if the library tracks it. */
    function KeyOf(c: char): Option<FallbackKey> {
      match scriptOf(c)
      case None => None
      case Some(script) =>
        var localized := FallbackKey(script, locale);
        if locale.Some? && tracked(localized) then Some(localized)
        else Some(FallbackKey(script, None))
    }

    /** `fallbacks_support_character`. */
    predicate Supported(table: Fallbacks, key: FallbackKey, c: char) {
      exists i :: 0 <= i < |Families(table, key)| && supports(Families(table, key)[i], [c])
    }

    /** Of the first n families searched, those that support the character, by sample support. */
    function Select(script: nat, c: char, n: nat, preferred: bool): (families: seq<FamilyId>)
      requires n <= |searchFamilies|
      ensures forall f :: f in families ==> supports(f, [c])
    {
      if n == 0 then []
      else
        var f := searchFamilies[n - 1];
        Select(script, c, n - 1, preferred)
        + if supports(f, [c]) && Preferred(script, c, f) == preferred then [f] else []
    }

    /** The family also supports the script's sample text, if that is another text. */
    predicate Preferred(script: nat, c: char, f: FamilyId) {
      var sample := if sample(script).Some? then sample(script).value else [c];
      sample != [c] && supports(f, sample)
    }

    /** `find_fallback_families`: supporting families, those that support the sample first. */
    function Candidates(script: nat, c: char): (families: seq<FamilyId>)
      ensures forall f :: f in families ==> supports(f, [c])
    {
      Select(script, c, |searchFamilies|, true) + Select(script, c, |searchFamilies|, false)
    }

    /** A character has the key of its script, with the locale exactly if the library tracks the pair. */
    lemma KeyPrefersLocale(c: char)
      ensures var key := KeyOf(c);
              && (key.None? <==> scriptOf(c).None?)
              && (key.Some? ==>
                    && Some(key.value.script) == scriptOf(c)
                    && (key.value.locale.Some? ==> key.value.locale == locale && tracked(key.value))
                    && (key.value.locale.None? ==>
                          locale.None? || !tracked(FallbackKey(key.value.script, locale))))
    {
    }

    /** The family supports the character and, if it must be preferred, also another sample text. */
    predicate IsSelected(script: nat, c: char, f: FamilyId, preferred: bool) {
      && supports(f, [c])
      && preferred == (sample(script).Some? && sample(script).value != [c] && supports(f, sample(script).value))
    }

    /** A selection is made family by family, and stays in the order of the search. */
    lemma SelectNext(script: nat, c: char, n: nat, preferred: bool)
      requires n < |searchFamilies|
      ensures Select(script, c, 0, preferred) == []
      ensures Select(script, c, n + 1, preferred)
           == Select(script, c, n, preferred)
              + if IsSelected(script, c, searchFamilies[n], preferred) then [searchFamilies[n]] else []
    {
    }

    /** The candidates are the families of the search that will do, the preferred ones before the others. */
    lemma CandidatesInOrder(script: nat, c: char)
      ensures var all := Candidates(script, c);
              && (forall f :: f in all <==> f in searchFamilies && supports(f, [c]))
              && (forall i, j :: 0 <= i < j < |all| && IsSelected(script, c, all[j], true) ==>
                    IsSelected(script, c, all[i], true))
    {
      SelectedFamilies(script, c, |searchFamilies|, true);
      SelectedFamilies(script, c, |searchFamilies|, false);
      assert searchFamilies[..|searchFamilies|] == searchFamilies;
      forall f ensures f in Candidates(script, c) <==> f in searchFamilies && supports(f, [c]) {
        assert supports(f, [c]) ==> IsSelected(script, c, f, true) || IsSelected(script, c, f, false);
      }
    }

    lemma {:induction false} SelectedFamilies(script: nat, c: char, n: nat, preferred: bool)
      requires n <= |searchFamilies|
      ensures forall f :: f in Select(script, c, n, preferred) <==>
                            f in searchFamilies[..n] && IsSelected(script, c, f, preferred)
    {
      if n > 0 {
        SelectedFamilies(script, c, n - 1, preferred);
        SelectNext(script, c, n - 1, preferred);
        assert searchFamilies[..n] == searchFamilies[..n - 1] + [searchFamilies[n - 1]];
      }
    }

    /** Nothing more can be done for the character: it is supported, or no family supports it. */
    predicate Settled(table: Fallbacks, c: char) {
      match KeyOf(c)
      case None => true
      case Some(key) => Supported(table, key, c) || Candidates(key.script, c) == []
    }

    predicate AllSettled(table: Fallbacks, text: Text) {
      forall i :: 0 <= i < |text| ==> Settled(table, text[i])
    }

    /** The fallback table after looking at the first n characters, without any memo. */
    function Ensured(table: Fallbacks, text: Text, n: nat): Fallbacks
      requires n <= |text|
    {
      if n == 0 then table
      else
        var before := Ensured(table, text, n - 1);
        var c := text[n - 1];
        if Settled(before, c) then before
        else append(before, KeyOf(c).value, Candidates(KeyOf(c).value.script, c)).0
    }

    // ----- Properties -----

    lemma SettledGrows(a: Fallbacks, b: Fallbacks, c: char)
      requires Grows(a, b) && Settled(a, c)
      ensures Settled(b, c)
    {
      var key := KeyOf(c);
      if key.Some? && Supported(a, key.value, c) {
        var i :| 0 <= i < |Families(a, key.value)| && supports(Families(a, key.value)[i], [c]);
        assert Families(a, key.value)[i] in Families(b, key.value);
      }
    }

    /** Appending the candidates of an unsettled character is a change, and settles it. */
    lemma AppendSettles(table: Fallbacks, c: char)
      requires Sound() && !Settled(table, c)
      ensures var key := KeyOf(c).value;
              var (after, changed) := append(table, key, Candidates(key.script, c));
              changed && Grows(table, after) && Settled(after, c)
    {
      var key := KeyOf(c).value;
      var families := Candidates(key.script, c);
      var f := families[0];
      assert f in families;
      var after := append(table, key, families).0;
      assert f in Families(after, key);
      var i :| 0 <= i < |Families(after, key)| && Families(after, key)[i] == f;
      assert supports(Families(after, key)[i], [c]);
    }

    lemma {:induction false} EnsuredSettles(table: Fallbacks, text: Text, n: nat)
      requires Sound() && n <= |text|
      ensures Grows(table, Ensured(table, text, n))
      ensures AllSettled(Ensured(table, text, n), text[..n])
    {
      if n > 0 {
        EnsuredSettles(table, text, n - 1);
        var before, after := Ensured(table, text, n - 1), Ensured(table, text, n);
        if !Settled(before, text[n - 1]) {
          AppendSettles(before, text[n - 1]);
        }
        forall i | 0 <= i < n - 1 ensures Settled(after, text[..n][i]) {
          assert Settled(before, text[..n - 1][i]);
          SettledGrows(before, after, text[i]);
        }
      }
    }

    lemma {:induction false} EnsuredNoChange(table: Fallbacks, text: Text, n: nat)
      requires n <= |text| && AllSettled(table, text)
      ensures Ensured(table, text, n) == table
    {
      if n > 0 {
        EnsuredNoChange(table, text, n - 1);
      }
    }

    /** A character is unsettled now iff it was at first, unless a change came in between. */
    lemma UnsettledSoFar(table: Fallbacks, text: Text, i: nat)
      requires Sound() && i < |text|
      ensures AllSettled(table, text[..i + 1]) <==> AllSettled(table, text[..i]) && Settled(table, text[i])
      ensures Settled(table, text[i]) ==> Settled(Ensured(table, text, i), text[i])
      ensures AllSettled(table, text[..i]) ==> Ensured(table, text, i) == table
    {
      assert text[..i + 1] == text[..i] + [text[i]];
      EnsuredSettles(table, text, i);
      if Settled(table, text[i]) {
        SettledGrows(table, Ensured(table, text, i), text[i]);
      }
      if AllSettled(table, text[..i]) {
        EnsuredSame(table, text[..i], text, i);
        EnsuredNoChange(table, text[..i], i);
      }
    }

    /** What is ensured depends on the characters looked at, and on no others. */
    lemma {:induction false} EnsuredSame(table: Fallbacks, a: Text, b: Text, n: nat)
      requires n <= |a| && n <= |b| && forall i :: 0 <= i < n ==> a[i] == b[i]
      ensures Ensured(table, a, n) == Ensured(table, b, n)
    {
      if n > 0 {
        EnsuredSame(table, a, b, n - 1);
      }
    }

    /** Ensuring fallbacks twice is ensuring them once. */
    lemma EnsureIdempotent(table: Fallbacks, text: Text)
      requires Sound()
      ensures var once := Ensured(table, text, |text|); Ensured(once, text, |text|) == once
    {
      EnsuredSettles(table, text, |text|);
      assert text[..|text|] == text;
      EnsuredNoChange(Ensured(table, text, |text|), text, |text|);
    }
  }

  /** Every key keeps the families it has. */
  ghost predicate Grows(a: Fallbacks, b: Fallbacks) {
    forall key, f :: f in Families(a, key) ==> f in Families(b, key)
  }

  // ----- The text system without a cache -----

  datatype Request<+Font> = UpdateFont(font: Font) | Shape(text: TextKey, variant: FontVariant)

  /** Font, line height and fallback table. */
  datatype Fresh<+Font> = Fresh(font: Font, metrics: nat, table: Fallbacks)

  /** Ensure fallbacks for the whole text, then build the layout afresh. */
  function ShapeFresh<Font, Layout>(lib: Library<Font, Layout>, s: Fresh<Font>,
                                    text: TextKey, variant: FontVariant): (Fresh<Font>, Layout)
  {
    var table := lib.Ensured(s.table, text.Contents(), |text.Contents()|);
    (s.(table := table), lib.build(s.font, s.metrics, table, text.Contents(), variant))
  }

  function UpdateFresh<Font, Layout>(lib: Library<Font, Layout>, s: Fresh<Font>, font: Font): Fresh<Font> {
    Fresh(font, lib.measure(font, s.table), s.table)
  }

  function ServeFresh<Font, Layout>(lib: Library<Font, Layout>, s: Fresh<Font>,
                                    layouts: seq<Layout>, request: Request<Font>)
    : (Fresh<Font>, seq<Layout>)
  {
    match request
    case UpdateFont(font) => (UpdateFresh(lib, s, font), layouts)
    case Shape(text, variant) =>
      var (after, layout) := ShapeFresh(lib, s, text, variant);
      (after, layouts + [layout])
  }

  /** The layouts returned by the first n requests. */
  function RunFresh<Font, Layout>(lib: Library<Font, Layout>, s: Fresh<Font>,
                                  requests: seq<Request<Font>>, n: nat): (Fresh<Font>, seq<Layout>)
    requires n <= |requests|
  {
    if n == 0 then (s, []) else
      var (before, layouts) := RunFresh(lib, s, requests, n - 1);
      ServeFresh(lib, before, layouts, requests[n - 1])
  }

  // ----- The text system with its cache -----

  class TextSystem<!Font, !Layout> {
    const lib: Library<Font, Layout>
    var font: Font
    var metrics: nat
    var table: Fallbacks
    var checked: set<(FallbackKey, char)>
    var cache: map<LayoutKey, Layout>

    ghost function View(): Fresh<Font>
      reads this
    {
      Fresh(font, metrics, table)
    }

    /** Memoised characters are settled. */
    ghost predicate MemoValid()
      reads this
    {
      forall entry :: entry in checked ==>
        lib.KeyOf(entry.1) == Some(entry.0) && lib.Settled(table, entry.1)
    }

    /** Cached layouts are fresh, and their texts need no more fallbacks. */
    ghost predicate CacheValid()
      reads this
    {
      forall key :: key in cache ==>
        && lib.AllSettled(table, key.text.Contents())
        && cache[key] == lib.build(font, metrics, table, key.text.Contents(), key.variant)
    }

    ghost predicate Valid()
      reads this
    {
      lib.Sound() && MemoValid() && CacheValid()
    }

    constructor (lib: Library<Font, Layout>, font: Font, table: Fallbacks)
      requires lib.Sound()
      ensures Valid() && this.lib == lib && View() == Fresh(font, lib.measure(font, table), table)
    {
      this.lib, this.font, this.table := lib, font, table;
      metrics := lib.measure(font, table);
      checked, cache := {}, map[];
    }

    method UpdateFont(font: Font)
      requires Valid()
      modifies this
      ensures Valid() && View() == UpdateFresh(lib, old(View()), font)
      ensures this.font == font && metrics == lib.measure(font, table) && table == old(table)
      ensures checked == {} && cache == map[]
    {
      this.font := font;
      metrics := lib.measure(font, table);
      checked := {};
      cache := map[];
    }

    method FindFallbackFamilies(script: nat, c: char) returns (families: seq<FamilyId>)
      ensures families == lib.Candidates(script, c)
    {
      var sample := if lib.sample(script).Some? then lib.sample(script).value else [c];
      var useSample := sample != [c];
      var preferred, fallbackOnly := [], [];
      for i := 0 to |lib.searchFamilies|
        invariant preferred == lib.Select(script, c, i, true)
        invariant fallbackOnly == lib.Select(script, c, i, false)
      {
        var f := lib.searchFamilies[i];
        if lib.supports(f, [c]) {
          if useSample && lib.supports(f, sample) {
            preferred := preferred + [f];
          } else {
            fallbackOnly := fallbackOnly + [f];
          }
        }
      }
      families := preferred + fallbackOnly;
    }

    /** Returns whether the fallback table changed. */
    method SeedFallbacks(key: FallbackKey, c: char) returns (changed: bool)
      requires lib.Sound() && lib.KeyOf(c) == Some(key) && !lib.Supported(table, key, c)
      modifies this`table
      ensures changed <==> !lib.Settled(old(table), c)
      ensures table == if lib.Settled(old(table), c) then old(table)
                       else lib.append(old(table), key, lib.Candidates(key.script, c)).0
    {
      var families := FindFallbackFamilies(key.script, c);
      if families == [] {
        return false;
      }
      lib.AppendSettles(table, c);
      var (after, reported) := lib.append(table, key, families);
      table := after;
      changed := reported;
    }

    /** One turn of the loop of `ensure_fontique_fallbacks`. */
    method EnsureCharacter(c: char) returns (changed: bool)
      requires lib.Sound() && MemoValid()
      modifies this`table, this`checked
      ensures MemoValid() && Grows(old(table), table) && lib.Settled(table, c)
      ensures changed <==> !lib.Settled(old(table), c)
      ensures table == if lib.Settled(old(table), c) then old(table)
                       else lib.append(old(table), lib.KeyOf(c).value,
                                       lib.Candidates(lib.KeyOf(c).value.script, c)).0
    {
      changed := false;
      var key := lib.KeyOf(c);
      if key.None? || (key.value, c) in checked {
        return;
      }
      if !lib.Supported(table, key.value, c) {
        ghost var before := table;
        if !lib.Settled(table, c) {
          lib.AppendSettles(table, c);
        }
        changed := SeedFallbacks(key.value, c);
        forall entry | entry in checked ensures lib.Settled(table, entry.1) {
          lib.SettledGrows(before, table, entry.1);
        }
      }
      checked := checked + {(key.value, c)};
    }

    /** The loop of `ensure_fontique_fallbacks`. */
    method EnsureCharacters(text: Text) returns (changed: bool)
      requires lib.Sound() && MemoValid()
      modifies this`table, this`checked
      ensures MemoValid()
      ensures table == lib.Ensured(old(table), text, |text|) && lib.AllSettled(table, text)
      ensures changed <==> !lib.AllSettled(old(table), text)
      ensures !changed ==> table == old(table)
    {
      changed := false;
      for i := 0 to |text|
        invariant MemoValid() && table == lib.Ensured(old(table), text, i)
        invariant changed <==> !lib.AllSettled(old(table), text[..i])
        invariant !changed ==> table == old(table)
      {
        var seeded := EnsureCharacter(text[i]);
        lib.UnsettledSoFar(old(table), text, i);
        changed := changed || seeded;
      }
      lib.EnsuredSettles(old(table), text, |text|);
      assert text[..|text|] == text;
    }

    /**
     Afterwards the fallback table is what it would be without the memo, and the cache is dropped
     exactly if the table had to be changed.
     */
    method EnsureFallbacks(text: Text)
      requires Valid()
      modifies this`table, this`checked, this`cache
      ensures Valid()
      ensures table == lib.Ensured(old(table), text, |text|) && lib.AllSettled(table, text)
      ensures if lib.AllSettled(old(table), text) then table == old(table) && cache == old(cache)
              else cache == map[]
    {
      var changed := EnsureCharacters(text);
      if changed {
        checked := {};
        cache := map[];
      }
    }

    method BuildAndCacheLayout(key: LayoutKey, text: Text, variant: FontVariant)
      returns (layout: Layout)
      requires Valid() && lib.AllSettled(table, text)
      requires key.text.Contents() == text && key.variant == variant
      modifies this`cache
      ensures Valid() && layout == lib.build(font, metrics, table, text, variant)
      ensures cache == old(cache)[key := layout]
    {
      layout := lib.build(font, metrics, table, text, variant);
      cache := cache[key := layout];
    }

    /**
     `shape_char_with_order` and `shape_text_with_order`. With either order of looking into the cache
     and ensuring fallbacks, the layout and the rest of the state are those of the system without a
     cache, and the cache is the same.
     */
    method ShapeWithOrder(text: TextKey, variant: FontVariant, cacheFirst: bool)
      returns (layout: Layout)
      requires Valid()
      modifies this
      ensures Valid() && font == old(font)
      ensures (View(), layout) == ShapeFresh(lib, old(View()), text, variant)
      ensures cache == CacheAfter(lib, old(font), old(table), old(cache), text, variant, layout)
    {
      var key := LayoutKey(text, variant, lib.sizeBits(font));
      if cacheFirst && key in cache {
        lib.EnsuredNoChange(table, text.Contents(), |text.Contents()|);
        return cache[key];
      }
      EnsureFallbacks(text.Contents());
      if !cacheFirst && key in cache {
        return cache[key];
      }
      layout := BuildAndCacheLayout(key, text.Contents(), variant);
    }

    method Serve(request: Request<Font>, served: seq<Layout>, cacheFirst: bool)
      returns (layouts: seq<Layout>)
      requires Valid()
      modifies this
      ensures Valid()
      ensures (View(), layouts) == ServeFresh(lib, old(View()), served, request)
    {
      layouts := served;
      match request
      case UpdateFont(f) => UpdateFont(f);
      case Shape(text, variant) =>
        var layout := ShapeWithOrder(text, variant, cacheFirst);
        layouts := layouts + [layout];
    }

    /** Any sequence of font updates and shape calls, in any orders, returns fresh layouts. */
    method Replay(requests: seq<Request<Font>>, cacheFirst: seq<bool>) returns (layouts: seq<Layout>)
      requires Valid() && |cacheFirst| == |requests|
      modifies this
      ensures Valid()
      ensures (View(), layouts) == RunFresh(lib, old(View()), requests, |requests|)
    {
      layouts := [];
      for i := 0 to |requests|
        invariant Valid()
        invariant (View(), layouts) == RunFresh(lib, old(View()), requests, i)
      {
        layouts := Serve(requests[i], layouts, cacheFirst[i]);
      }
    }
  }

  /** The cache after a shape call: dropped if fallbacks had to be added, and with the new layout. */
  ghost function CacheAfter<Font, Layout>(lib: Library<Font, Layout>, font: Font, table: Fallbacks,
                                          cache: map<LayoutKey, Layout>, text: TextKey,
                                          variant: FontVariant, layout: Layout)
    : map<LayoutKey, Layout>
  {
    var kept := if lib.AllSettled(table, text.Contents()) then cache else map[];
    kept[LayoutKey(text, variant, lib.sizeBits(font)) := layout]
  }
}
