/** Which language variant of a body of material a learner gets. */
module Variants {
  import opened Common
  import opened Domain

  datatype Variant = Variant(language: Language, id: ModuleId)

  /** The deterministic order variants are considered in. */
  predicate Before(a: Variant, b: Variant) {
    a.language < b.language || (a.language == b.language && a.id <= b.id)
  }

  // --- The choice as a function of the set of variants -------------------------

  predicate IsFirst(v: Variant, vs: set<Variant>) {
    v in vs && forall w :: w in vs ==> Before(v, w)
  }

  lemma {:induction false} FirstExists(vs: set<Variant>)
    requires vs != {}
    ensures exists v :: IsFirst(v, vs)
  {
    var v :| v in vs;
    if vs == {v} {
      assert IsFirst(v, vs);
    } else {
      FirstExists(vs - {v});
      var w :| IsFirst(w, vs - {v});
      assert forall u :: u in vs ==> u == v || u in vs - {v};
      assert IsFirst(if Before(v, w) then v else w, vs);
    }
  }

  ghost function First(vs: set<Variant>): (v: Variant)
    requires vs != {}
    ensures IsFirst(v, vs)
  {
    FirstExists(vs);
    var v :| IsFirst(v, vs);
    v
  }

  /** The variants of the highest-ranking kind present: the one being read, the learner's language, the primary, any. */
  function Favoured(vs: set<Variant>, preferred: Option<Language>, primary: Option<ModuleId>, sticky: Option<ModuleId>): set<Variant> {
    var stuck := set v | v in vs && sticky == Some(v.id);
    var spoken := set v | v in vs && preferred == Some(v.language);
    var main := set v | v in vs && primary == Some(v.id);
    if stuck != {} then stuck
    else if spoken != {} then spoken
    else if main != {} then main
    else vs
  }

  ghost function Pick(vs: set<Variant>, preferred: Option<Language>, primary: Option<ModuleId>,
        sticky: Option<ModuleId>): (r: Option<Variant>)
    ensures r.None? <==> vs == {}
    ensures r.Some? ==> r.value in vs
  {
    if vs == {} then None else Some(First(Favoured(vs, preferred, primary, sticky)))
  }

  /** The variant being read wins over every preference, for as long as it is among the readable ones. */
  lemma StickyWins(vs: set<Variant>, preferred: Option<Language>, primary: Option<ModuleId>, v: Variant)
    requires v in vs && forall w :: w in vs && w.id == v.id ==> w == v
    ensures Pick(vs, preferred, primary, Some(v.id)) == Some(v)
  {
    var stuck := set w | w in vs && Some(v.id) == Some(w.id);
    assert v in stuck;
    assert stuck == {v};
    assert Favoured(vs, preferred, primary, Some(v.id)) == {v};
  }

  /** One of these is being read, or is in the learner's language: the primary is not asked for. */
  predicate IsServed(vs: set<Variant>, preferred: Option<Language>, sticky: Option<ModuleId>) {
    exists v :: v in vs && (sticky == Some(v.id) || preferred == Some(v.language))
  }

  lemma ServedKeepTheirs(vs: set<Variant>, preferred: Option<Language>, primary: Option<ModuleId>,
        other: Option<ModuleId>, sticky: Option<ModuleId>)
    requires IsServed(vs, preferred, sticky)
    ensures Pick(vs, preferred, primary, sticky) == Pick(vs, preferred, other, sticky)
  {
    var v :| v in vs && (sticky == Some(v.id) || preferred == Some(v.language));
    var stuck, spoken := set w | w in vs && sticky == Some(w.id), set w | w in vs && preferred == Some(w.language);
    assert v in stuck || v in spoken;
  }

  /** The primary is what everybody else gets. */
  lemma PrimaryServesTheRest(vs: set<Variant>, preferred: Option<Language>, v: Variant, sticky: Option<ModuleId>)
    requires !IsServed(vs, preferred, sticky)
    requires v in vs && forall w :: w in vs && w.id == v.id ==> w == v
    ensures Pick(vs, preferred, Some(v.id), sticky) == Some(v)
  {
    var main := set w | w in vs && Some(v.id) == Some(w.id);
    assert v in main;
    assert main == {v};
    assert Favoured(vs, preferred, Some(v.id), sticky) == {v};
  }

  /** No two variants are in the same language or have the same id, as in every translation group. */
  predicate AreTranslations(vs: set<Variant>) {
    forall v, w :: v in vs && w in vs && (v.language == w.language || v.id == w.id) ==> v == w
  }

  /**
   * Of the translations there are, a learner gets the one they are reading; else the one in their language; else the primary;
   * else the one whose language comes first.
   */
  lemma ChoiceIsRanked(vs: set<Variant>, preferred: Option<Language>, primary: Option<ModuleId>, sticky: Option<ModuleId>, v: Variant)
    requires AreTranslations(vs) && v in vs
    ensures sticky == Some(v.id) ==> Pick(vs, preferred, primary, sticky) == Some(v)
    ensures (forall w :: w in vs ==> sticky != Some(w.id)) && preferred == Some(v.language) ==>
              Pick(vs, preferred, primary, sticky) == Some(v)
    ensures !IsServed(vs, preferred, sticky) && primary == Some(v.id) ==> Pick(vs, preferred, primary, sticky) == Some(v)
    ensures !IsServed(vs, preferred, sticky) && (forall w :: w in vs ==> primary != Some(w.id) && v.language <= w.language) ==>
              Pick(vs, preferred, primary, sticky) == Some(v)
  {
    hide AreTranslations;
    if sticky == Some(v.id) {
      assert AreTranslations(vs) ==> forall w :: w in vs && w.id == v.id ==> w == v by { OthersDiffer(vs, v); }
      StickyWins(vs, preferred, primary, v);
    }
    if (forall w :: w in vs ==> sticky != Some(w.id)) && preferred == Some(v.language) {
      OthersDiffer(vs, v);
      LanguageWins(vs, primary, sticky, v);
    }
    if !IsServed(vs, preferred, sticky) {
      OthersDiffer(vs, v);
      if primary == Some(v.id) {
        PrimaryServesTheRest(vs, preferred, v, sticky);
      }
      if forall w :: w in vs ==> primary != Some(w.id) && v.language <= w.language {
        FirstLanguageIsLeft(vs, preferred, primary, sticky, v);
      }
    }
  }

  lemma OthersDiffer(vs: set<Variant>, v: Variant)
    requires AreTranslations(vs) && v in vs
    ensures forall w :: w in vs && (w.id == v.id || w.language == v.language) ==> w == v
  {
  }

  lemma LanguageWins(vs: set<Variant>, primary: Option<ModuleId>, sticky: Option<ModuleId>, v: Variant)
    requires v in vs && forall w :: w in vs && w.language == v.language ==> w == v
    requires forall w :: w in vs ==> sticky != Some(w.id)
    ensures Pick(vs, Some(v.language), primary, sticky) == Some(v)
  {
    var spoken := set w | w in vs && Some(v.language) == Some(w.language);
    assert v in spoken;
    assert spoken == {v};
    assert Favoured(vs, Some(v.language), primary, sticky) == {v};
  }

  lemma FirstLanguageIsLeft(vs: set<Variant>, preferred: Option<Language>, primary: Option<ModuleId>, sticky: Option<ModuleId>, v: Variant)
    requires v in vs && forall w :: w in vs && w.language == v.language ==> w == v
    requires !IsServed(vs, preferred, sticky) && forall w :: w in vs ==> primary != Some(w.id) && v.language <= w.language
    ensures Pick(vs, preferred, primary, sticky) == Some(v)
  {
    assert Favoured(vs, preferred, primary, sticky) == vs;
    var first := First(vs);
    assert Before(first, v);
  }

  // --- The choice as the code makes it, from a list in whatever order the query returned ---

  function Insert(v: Variant, s: seq<Variant>): seq<Variant> {
    if s == [] || Before(v, s[0]) then [v] + s else [s[0]] + Insert(v, s[1..])
  }

  function Sorted(s: seq<Variant>): seq<Variant> {
    if s == [] then [] else Insert(s[0], Sorted(s[1..]))
  }

  predicate InOrder(s: seq<Variant>) {
    forall i, j :: 0 <= i < j < |s| ==> Before(s[i], s[j])
  }

  lemma {:induction false} InsertProperties(v: Variant, s: seq<Variant>)
    requires InOrder(s)
    ensures InOrder(Insert(v, s))
    ensures forall w :: w in Insert(v, s) <==> w == v || w in s
  {
    if s != [] && !Before(v, s[0]) {
      InsertProperties(v, s[1..]);
      var rest := Insert(v, s[1..]);
      assert forall w :: w in rest ==> Before(s[0], w) by {
        forall w | w in rest ensures Before(s[0], w) {
          if w != v {
            var k :| 0 <= k < |s[1..]| && s[1..][k] == w;
            assert w == s[k + 1];
          }
        }
      }
      assert s == [s[0]] + s[1..];
    }
  }

  lemma {:induction false} SortedProperties(s: seq<Variant>)
    ensures InOrder(Sorted(s))
    ensures forall w :: w in Sorted(s) <==> w in s
  {
    if s != [] {
      SortedProperties(s[1..]);
      InsertProperties(s[0], Sorted(s[1..]));
      assert s == [s[0]] + s[1..];
    }
  }

  function AsSet(s: seq<Variant>): set<Variant> {
    set v | v in s
  }

  /** The answer depends only on which variants there are: not on the order of the list, nor on repetitions in it. */
  method PickVariant(variants: seq<Variant>, preferred: Option<Language>, primary: Option<ModuleId>, sticky: Option<ModuleId>)
    returns (r: Option<Variant>)
    ensures r == Pick(AsSet(variants), preferred, primary, sticky)
  {
    hide Before, InOrder, Sorted, First;
    if variants == [] {
      return None;
    }
    var ordered := Sorted(variants);
    SortedProperties(variants);
    assert variants[0] in ordered;
    ghost var vs := AsSet(variants);
    assert vs == AsSet(ordered);
    if sticky.Some? {
      for i := 0 to |ordered|
        invariant forall j :: 0 <= j < i ==> ordered[j].id != sticky.value
      {
        if ordered[i].id == sticky.value {
          FirstMatch(ordered, i, set v | v in vs && sticky == Some(v.id));
          return Some(ordered[i]);
        }
      }
    }
    for i := 0 to |ordered|
      invariant forall j :: 0 <= j < i ==> preferred != Some(ordered[j].language)
    {
      if preferred.Some? && ordered[i].language == preferred.value {
        FirstMatch(ordered, i, set v | v in vs && preferred == Some(v.language));
        return Some(ordered[i]);
      }
    }
    for i := 0 to |ordered|
      invariant forall j :: 0 <= j < i ==> primary != Some(ordered[j].id)
    {
      if primary == Some(ordered[i].id) {
        FirstMatch(ordered, i, set v | v in vs && primary == Some(v.id));
        return Some(ordered[i]);
      }
    }
    FirstMatch(ordered, 0, vs);
    return Some(ordered[0]);
  }

  /** The first entry of an ordered list that belongs to `vs` is the first element of `vs`. */
  lemma FirstMatch(ordered: seq<Variant>, i: nat, vs: set<Variant>)
    requires InOrder(ordered) && i < |ordered| && ordered[i] in vs
    requires forall v :: v in vs ==> v in ordered
    requires forall j :: 0 <= j < i ==> ordered[j] !in vs
    ensures vs != {} && First(vs) == ordered[i]
  {
    forall v | v in vs ensures Before(ordered[i], v) {
      var k :| 0 <= k < |ordered| && ordered[k] == v;
    }
    assert IsFirst(ordered[i], vs);
  }
}
