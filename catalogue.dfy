/**
  The gallery page (App.tsx): the animation records, the case-insensitive
  search, the grouping of the matches into category sections in a fixed
  order, the category buttons that set the search term, and the choice
  between the "no matches" placeholder, the sectioned view and the flat grid.
 */
module Catalogue {
  import opened Wrappers
  import opened Text
  import opened Sequences

  datatype Category = Spinners | Dots | Bars | ShapeShift | AiGenerated | Westworld

  /** The category's display name; the first one is spelt with three n's in the catalogue. */
  function CategoryName(c: Category): string {
    match c
    case Spinners => "Spinnners"
    case Dots => "Dots"
    case Bars => "Bars"
    case ShapeShift => "Shape Shift"
    case AiGenerated => "AI Generated"
    case Westworld => "Westworld"
  }

  /** The section order of the grouped view. */
  const CategoryOrder: seq<Category> := [Spinners, Dots, Bars, ShapeShift, AiGenerated, Westworld]

  function CategoryIndex(c: Category): (k: nat)
    ensures k < |CategoryOrder| && CategoryOrder[k] == c
  {
    match c
    case Spinners => 0
    case Dots => 1
    case Bars => 2
    case ShapeShift => 3
    case AiGenerated => 4
    case Westworld => 5
  }

  lemma CategoryIndexOf(k: nat)
    requires k < |CategoryOrder|
    ensures CategoryIndex(CategoryOrder[k]) == k
  {
  }

  datatype User = User(name: string, avatar: string, level: int, xp: int, isMod: bool)

  datatype Animation = Animation(
    id: string,
    name: string,
    description: string,
    category: Category,
    html: string,
    tailwindClasses: string,
    author: Option<User>)

  // ---------------------------------------------------------------- search

  /** An animation survives the search when the lower-cased term occurs in its
      lower-cased name, description or category name. */
  predicate Matches(a: Animation, term: string) {
    var t := ToLower(term);
    Contains(ToLower(a.name), t)
    || Contains(ToLower(a.description), t)
    || Contains(ToLower(CategoryName(a.category)), t)
  }

  /** The animations shown for a search term, in catalogue order. */
  function FilterAnimations(all: seq<Animation>, term: string): (r: seq<Animation>)
    ensures forall a :: a in r <==> a in all && Matches(a, term)
    ensures forall a :: multiset(r)[a] == if Matches(a, term) then multiset(all)[a] else 0
    ensures |r| <= |all|
  {
    if all == [] then []
    else
      assert all == [all[0]] + all[1..];
      (if Matches(all[0], term) then [all[0]] else []) + FilterAnimations(all[1..], term)
  }

  /** Filtering only deletes: the matches keep their catalogue order. */
  lemma {:induction false} FilterKeepsOrder(all: seq<Animation>, term: string)
    ensures IsSubsequence(FilterAnimations(all, term), all)
  {
    if all != [] {
      var rest := FilterAnimations(all[1..], term);
      FilterKeepsOrder(all[1..], term);
      if !Matches(all[0], term) {
        assert FilterAnimations(all, term) == rest;
        if rest != [] {
          assert rest[0] in rest;
          assert rest[0] != all[0];
        }
      } else {
        var r := FilterAnimations(all, term);
        assert r == [all[0]] + rest;
        assert r[1..] == rest;
      }
    }
  }

  /** The empty term keeps the whole catalogue. */
  lemma {:induction false} EmptyTermKeepsAll(all: seq<Animation>)
    ensures FilterAnimations(all, "") == all
  {
    if all != [] {
      ContainsEmpty(ToLower(all[0].name));
      assert ToLower("") == "";
      EmptyTermKeepsAll(all[1..]);
    }
  }

  lemma ContainsSelf(s: string)
    ensures Contains(s, s)
  {
    assert s[0..|s|] == s;
  }

  /** Searching for a category's name keeps every animation of that category. */
  lemma CategoryTermKeepsCategory(all: seq<Animation>, c: Category)
    ensures forall a :: a in all && a.category == c ==> a in FilterAnimations(all, CategoryName(c))
  {
    ContainsSelf(ToLower(CategoryName(c)));
  }

  // -------------------------------------------------------------- grouping

  /** The animations of category `c`, in their order. */
  function InCategory(xs: seq<Animation>, c: Category): seq<Animation> {
    if xs == [] then []
    else InCategory(xs[..|xs| - 1], c) + (if xs[|xs| - 1].category == c then [xs[|xs| - 1]] else [])
  }

  /** The animations whose category comes before position `k` of the section order. */
  function Below(xs: seq<Animation>, k: nat): seq<Animation> {
    if xs == [] then []
    else Below(xs[..|xs| - 1], k) + (if CategoryIndex(xs[|xs| - 1].category) < k then [xs[|xs| - 1]] else [])
  }

  type Group = (Category, seq<Animation>)

  /** The non-empty sections for the first `k` categories of the section order. */
  function GroupsUpTo(xs: seq<Animation>, k: nat): seq<Group>
    requires k <= |CategoryOrder|
  {
    if k == 0 then []
    else
      var c := CategoryOrder[k - 1];
      var g := InCategory(xs, c);
      GroupsUpTo(xs, k - 1) + (if g == [] then [] else [(c, g)])
  }

  /** Sections come in section order below position `k`, none is empty, and each holds exactly its category's matches. */
  ghost predicate WellGrouped(xs: seq<Animation>, gs: seq<Group>, k: nat) {
    && (forall i :: 0 <= i < |gs| ==> CategoryIndex(gs[i].0) < k)
    && (forall i, j :: 0 <= i < j < |gs| ==> CategoryIndex(gs[i].0) < CategoryIndex(gs[j].0))
    && (forall i :: 0 <= i < |gs| ==> gs[i].1 != [] && gs[i].1 == InCategory(xs, gs[i].0))
  }

  lemma {:induction false} GroupsUpToShape(xs: seq<Animation>, k: nat)
    requires k <= |CategoryOrder|
    ensures WellGrouped(xs, GroupsUpTo(xs, k), k)
  {
    if k > 0 {
      GroupsUpToShape(xs, k - 1);
      var c := CategoryOrder[k - 1];
      var g := InCategory(xs, c);
      var prev := GroupsUpTo(xs, k - 1);
      assert WellGrouped(xs, prev, k - 1);
      assert CategoryIndex(c) == k - 1;
      if g != [] {
        var gs := prev + [(c, g)];
        assert GroupsUpTo(xs, k) == gs;
        assert gs[|prev|] == (c, g);
        forall i | 0 <= i < |gs|
          ensures CategoryIndex(gs[i].0) < k
          ensures gs[i].1 != [] && gs[i].1 == InCategory(xs, gs[i].0)
        {
          if i < |prev| { assert gs[i] == prev[i]; }
        }
        forall i, j | 0 <= i < j < |gs|
          ensures CategoryIndex(gs[i].0) < CategoryIndex(gs[j].0)
        {
          assert gs[i] == prev[i];
          if j < |prev| { assert gs[j] == prev[j]; }
        }
        assert WellGrouped(xs, gs, k);
      } else {
        assert GroupsUpTo(xs, k) == prev;
      }
    }
  }

  /** Every category with matches below the bound has its section. */
  lemma {:induction false} GroupsUpToComplete(xs: seq<Animation>, k: nat, c: Category)
    requires k <= |CategoryOrder|
    requires CategoryIndex(c) < k && InCategory(xs, c) != []
    ensures exists i :: 0 <= i < |GroupsUpTo(xs, k)| && GroupsUpTo(xs, k)[i].0 == c
  {
    var prev := GroupsUpTo(xs, k - 1);
    GroupsUpToPrefix(xs, k);
    if CategoryIndex(c) == k - 1 {
      var gs := GroupsUpTo(xs, k);
      assert gs[|prev|].0 == c;
    } else {
      GroupsUpToComplete(xs, k - 1, c);
      var i :| 0 <= i < |prev| && prev[i].0 == c;
      assert GroupsUpTo(xs, k)[i] == prev[i];
    }
  }

  /** The sections below `k` extend those below `k - 1`, by category `k - 1`'s section when it has matches. */
  lemma {:induction false} GroupsUpToPrefix(xs: seq<Animation>, k: nat)
    requires 0 < k <= |CategoryOrder|
    ensures var prev, c := GroupsUpTo(xs, k - 1), CategoryOrder[k - 1];
      |GroupsUpTo(xs, k)| == |prev| + (if InCategory(xs, c) == [] then 0 else 1) &&
      GroupsUpTo(xs, k)[..|prev|] == prev &&
      (InCategory(xs, c) != [] ==> GroupsUpTo(xs, k)[|prev|] == (c, InCategory(xs, c)))
  {
  }

  /** The sectioned view of the matches. */
  function Grouped(xs: seq<Animation>): seq<Group> {
    GroupsUpTo(xs, |CategoryOrder|)
  }

  /** All sections' animations, one section after another. */
  function Flatten(gs: seq<Group>): seq<Animation> {
    if gs == [] then [] else Flatten(gs[..|gs| - 1]) + gs[|gs| - 1].1
  }

  /**
    The page's buckets: one per category of the section order, starting
    empty, with each match pushed into its category's bucket in list order.
   */
  method Buckets(filtered: seq<Animation>) returns (buckets: map<Category, seq<Animation>>)
    ensures forall c :: c in buckets && buckets[c] == InCategory(filtered, c)
  {
    buckets := map[];
    for i := 0 to |CategoryOrder|
      invariant forall c :: c in buckets <==> CategoryIndex(c) < i
      invariant forall c :: c in buckets ==> buckets[c] == []
    {
      buckets := buckets[CategoryOrder[i] := []];
    }
    for j := 0 to |filtered|
      invariant forall c :: c in buckets && buckets[c] == InCategory(filtered[..j], c)
    {
      var a := filtered[j];
      assert filtered[..j + 1][..j] == filtered[..j];
      buckets := buckets[a.category := (if a.category in buckets then buckets[a.category] else []) + [a]];
    }
    assert filtered[..|filtered|] == filtered;
  }

  /**
    The grouping as the page computes it: nothing while a search term is set;
    otherwise the buckets in section order, the empty ones dropped.
   */
  method GroupAnimations(filtered: seq<Animation>, searchTerm: string) returns (groups: Option<seq<Group>>)
    ensures groups.None? <==> searchTerm != ""
    ensures groups.Some? ==> groups.value == Grouped(filtered)
  {
    if searchTerm != "" {
      return None;
    }
    var buckets := Buckets(filtered);
    var entries: seq<Group> := [];
    for k := 0 to |CategoryOrder|
      invariant entries == GroupsUpTo(filtered, k)
    {
      var c := CategoryOrder[k];
      if |buckets[c]| > 0 {
        entries := entries + [(c, buckets[c])];
      }
    }
    return Some(entries);
  }

  lemma {:induction false} BelowZero(xs: seq<Animation>)
    ensures Below(xs, 0) == []
  {
    if xs != [] { BelowZero(xs[..|xs| - 1]); }
  }

  lemma {:induction false} BelowAll(xs: seq<Animation>)
    ensures Below(xs, |CategoryOrder|) == xs
  {
    if xs != [] {
      BelowAll(xs[..|xs| - 1]);
      assert xs == xs[..|xs| - 1] + [xs[|xs| - 1]];
    }
  }

  /** Raising the bound by one adds exactly the animations of the next category. */
  lemma {:induction false} BelowStep(xs: seq<Animation>, k: nat)
    requires k < |CategoryOrder|
    ensures multiset(Below(xs, k + 1)) == multiset(Below(xs, k)) + multiset(InCategory(xs, CategoryOrder[k]))
  {
    if xs != [] {
      var init := xs[..|xs| - 1];
      var a := xs[|xs| - 1];
      BelowStep(init, k);
      var next: seq<Animation> := if CategoryIndex(a.category) < k + 1 then [a] else [];
      var here: seq<Animation> := if CategoryIndex(a.category) < k then [a] else [];
      var same: seq<Animation> := if a.category == CategoryOrder[k] then [a] else [];
      LastOneSplits(a, k);
      var mInit, mHere, mSame := multiset(Below(init, k)), multiset(here), multiset(same);
      var mCat := multiset(InCategory(init, CategoryOrder[k]));
      calc {
        multiset(Below(xs, k + 1));
        multiset(Below(init, k + 1)) + multiset(next);
        (mInit + mCat) + (mHere + mSame);
        { SwapMiddle(mInit, mCat, mHere, mSame); }
        (mInit + mHere) + (mCat + mSame);
        multiset(Below(xs, k)) + multiset(InCategory(xs, CategoryOrder[k]));
      }
    }
  }

  /** The last animation joins the bound `k + 1` exactly when it joins the bound `k` or is in category `k`. */
  lemma LastOneSplits(a: Animation, k: nat)
    requires k < |CategoryOrder|
    ensures var next: seq<Animation> := if CategoryIndex(a.category) < k + 1 then [a] else [];
      var here: seq<Animation> := if CategoryIndex(a.category) < k then [a] else [];
      var same: seq<Animation> := if a.category == CategoryOrder[k] then [a] else [];
      multiset(next) == multiset(here) + multiset(same)
  {
    if a.category == CategoryOrder[k] {
      assert CategoryIndex(a.category) == k by { CategoryIndexOf(k); }
    }
  }

  lemma SwapMiddle<T>(a: multiset<T>, b: multiset<T>, c: multiset<T>, d: multiset<T>)
    ensures (a + b) + (c + d) == (a + c) + (b + d)
  {
    assert forall x :: ((a + b) + (c + d))[x] == ((a + c) + (b + d))[x];
  }

  /** The sections together hold exactly the animations of their categories. */
  lemma {:induction false} FlattenGroupsUpTo(xs: seq<Animation>, k: nat)
    requires k <= |CategoryOrder|
    ensures multiset(Flatten(GroupsUpTo(xs, k))) == multiset(Below(xs, k))
  {
    if k == 0 {
      BelowZero(xs);
    } else {
      var here := multiset(InCategory(xs, CategoryOrder[k - 1]));
      calc {
        multiset(Flatten(GroupsUpTo(xs, k)));
        { FlattenStep(xs, k); }
        multiset(Flatten(GroupsUpTo(xs, k - 1))) + here;
        { FlattenGroupsUpTo(xs, k - 1); }
        multiset(Below(xs, k - 1)) + here;
        { BelowStep(xs, k - 1); }
        multiset(Below(xs, k));
      }
    }
  }

  /** One more category in the section order adds exactly its animations to the sections. */
  lemma {:induction false} FlattenStep(xs: seq<Animation>, k: nat)
    requires 0 < k <= |CategoryOrder|
    ensures multiset(Flatten(GroupsUpTo(xs, k))) ==
      multiset(Flatten(GroupsUpTo(xs, k - 1))) + multiset(InCategory(xs, CategoryOrder[k - 1]))
  {
    var c := CategoryOrder[k - 1];
    var g := InCategory(xs, c);
    var prev := GroupsUpTo(xs, k - 1);
    if g == [] {
      assert GroupsUpTo(xs, k) == prev;
    } else {
      var gs := prev + [(c, g)];
      assert GroupsUpTo(xs, k) == gs;
      assert gs[..|gs| - 1] == prev;
      assert Flatten(gs) == Flatten(prev) + g;
    }
  }

  /** Grouping neither loses nor duplicates a match: the sections are a permutation of the list. */
  lemma GroupedIsPermutation(xs: seq<Animation>)
    ensures multiset(Flatten(Grouped(xs))) == multiset(xs)
  {
    FlattenGroupsUpTo(xs, |CategoryOrder|);
    BelowAll(xs);
  }

  // ------------------------------------------------------------- controls

  /** The category buttons above the gallery, in display order. */
  const CategoryButtons: seq<string> := ["All", "Spinnners", "Dots", "Bars", "Shape Shift", "Westworld"]

  /** The search term a category button sets. */
  function ButtonTerm(button: string): string {
    if button == "All" then "" else button
  }

  predicate ButtonHighlighted(button: string, term: string) {
    (button == "All" && term == "") || term == button
  }

  /** After clicking a category button, that button and no other is highlighted. */
  lemma ClickHighlightsOnlyThatButton(i: nat)
    requires i < |CategoryButtons|
    ensures forall j :: 0 <= j < |CategoryButtons| ==>
              (ButtonHighlighted(CategoryButtons[j], ButtonTerm(CategoryButtons[i])) <==> j == i)
  {
  }

  datatype SectionStyle = SectionStyle(icon: string, color: string)

  const CategoryConfig: map<string, SectionStyle> := map[
    "Spinnners" := SectionStyle("fa-circle-notch", "text-emerald-400"),
    "Dots" := SectionStyle("fa-ellipsis", "text-cyan-400"),
    "Bars" := SectionStyle("fa-bars-progress", "text-amber-400"),
    "Shape Shift" := SectionStyle("fa-shapes", "text-purple-400"),
    "AI Generated" := SectionStyle("fa-robot", "text-pink-400"),
    "Westworld" := SectionStyle("fa-atom", "text-sky-400")
  ]

  const FallbackStyle := SectionStyle("fa-folder", "text-zinc-400")

  /** A section's icon and colour, with a folder icon for a category the table lacks. */
  function CategoryStyle(category: string): (s: SectionStyle)
    ensures category in CategoryConfig ==> s == CategoryConfig[category] && s != FallbackStyle
    ensures category !in CategoryConfig ==> s == FallbackStyle
  {
    if category in CategoryConfig then CategoryConfig[category] else FallbackStyle
  }

  /** Every section the grouping can produce has its own style: the fallback is never used. */
  lemma EveryCategoryConfigured(c: Category)
    ensures CategoryName(c) in CategoryConfig && CategoryStyle(CategoryName(c)) != FallbackStyle
  {
  }

  datatype GalleryView = NoMatches | Sections(groups: seq<Group>) | Grid(items: seq<Animation>)

  /** What the gallery shows: the placeholder, the sections (empty term) or a flat grid. */
  function GalleryViewFor(all: seq<Animation>, term: string): (v: GalleryView)
    ensures v.NoMatches? <==> FilterAnimations(all, term) == []
    ensures v.Sections? ==> term == ""
    ensures v.Grid? ==> term != "" && v.items == FilterAnimations(all, term)
  {
    var filtered := FilterAnimations(all, term);
    if filtered == [] then NoMatches
    else if term == "" then Sections(Grouped(filtered))
    else Grid(filtered)
  }

  /** With no search term the sections show every catalogue entry exactly once. */
  lemma SectionsShowWholeCatalogue(all: seq<Animation>)
    requires all != []
    ensures GalleryViewFor(all, "").Sections?
    ensures multiset(Flatten(GalleryViewFor(all, "").groups)) == multiset(all)
  {
    EmptyTermKeepsAll(all);
    GroupedIsPermutation(all);
  }
}
