/**
 Who sells under a category: the count on a chip, and the filter the chip opens
 (app/services/category_service.py).
 */
module CategoryCounts {
  import opened Options
  import opened CategoryNames
  import opened CategoryDirectory

  /** An active section of a visible restaurant, linked to the category, holding a
      live item. `visible`: verified and not deactivated. */
  predicate SellsHere(s: Section, category: nat)
  {
    s.category == Some(category) && s.active && s.live
  }

  function SellersOf(d: Directory, visible: set<nat>, category: nat): set<nat>
  {
    set id | id in d.sections && SellsHere(d.sections[id], category) && d.sections[id].restaurant in visible
      :: d.sections[id].restaurant
  }

  /** `restaurant_counts` for one category: a restaurant counts once. */
  function RestaurantCount(d: Directory, visible: set<nat>, category: nat): nat
  {
    |SellersOf(d, visible, category)|
  }

  /** `sells_under`, as a predicate on restaurants: some active category the slug
      opens has a live section of theirs. */
  predicate SellsUnder(d: Directory, restaurant: nat, slug: string)
  {
    exists id, category ::
      && id in d.sections && d.sections[id].restaurant == restaurant && category in d.categories
      && SellsHere(d.sections[id], category)
      && Opens(d.categories[category], slug) && d.categories[category].active
  }

  function Listed(d: Directory, visible: set<nat>, slug: string): set<nat>
  {
    set restaurant | restaurant in visible && SellsUnder(d, restaurant, slug)
  }

  /** A section that is hidden, or holds no live item, or whose restaurant is not
      visible, counts under no category and puts its restaurant on no list. */
  lemma DeadSectionCountsNowhere(d: Directory, visible: set<nat>, id: nat, category: nat, slug: string)
    requires id in d.sections
    requires !d.sections[id].active || !d.sections[id].live || d.sections[id].restaurant !in visible
    ensures
      var without := d.(sections := d.sections - {id});
      && SellersOf(d, visible, category) == SellersOf(without, visible, category)
      && Listed(d, visible, slug) == Listed(without, visible, slug)
  {
    var without := d.(sections := d.sections - {id});
    forall r | r in SellersOf(d, visible, category)
      ensures r in SellersOf(without, visible, category)
    {
      var s :| s in d.sections && SellsHere(d.sections[s], category) && d.sections[s].restaurant == r;
      assert s in without.sections && SellsHere(without.sections[s], category);
    }
    forall r | r in visible
      ensures SellsUnder(d, r, slug) <==> SellsUnder(without, r, slug)
    {
      if s, c :| s in d.sections && d.sections[s].restaurant == r && c in d.categories && SellsHere(d.sections[s], c)
                 && Opens(d.categories[c], slug) && d.categories[c].active {
        assert s in without.sections && SellsHere(without.sections[s], c);
      }
    }
  }

  /** Any other section counts under its category, and puts its restaurant on the list
      of every slug or alias of that category, unless the category is hidden. */
  lemma LiveSectionCounts(d: Directory, visible: set<nat>, id: nat, category: nat, slug: string)
    requires id in d.sections && d.sections[id].active && d.sections[id].live && d.sections[id].restaurant in visible
    requires d.sections[id].category == Some(category) && category in d.categories
    ensures d.sections[id].restaurant in SellersOf(d, visible, category)
    ensures
      var c := d.categories[category];
      c.active && (slug == c.slug || slug in c.aliases) ==> d.sections[id].restaurant in Listed(d, visible, slug)
  {
    assert SellsHere(d.sections[id], category);
  }

  /** Every other active category that this slug also opens adds no seller. */
  ghost predicate SlugIsOwn(d: Directory, visible: set<nat>, category: nat)
    requires category in d.categories
  {
    forall other | other in d.categories && other != category && d.categories[other].active
                   && Opens(d.categories[other], d.categories[category].slug) ::
      SellersOf(d, visible, other) <= SellersOf(d, visible, category)
  }

  lemma ListedThrough(d: Directory, visible: set<nat>, slug: string, category: nat)
    requires category in d.categories && d.categories[category].active && Opens(d.categories[category], slug)
    ensures SellersOf(d, visible, category) <= Listed(d, visible, slug)
  {
  }

  /** The filter lists exactly the restaurants an active chip's count promised
      precisely when no other active category opened by the slug adds one. */
  lemma CountIsWhatIsListedIff(d: Directory, visible: set<nat>, category: nat)
    requires category in d.categories && d.categories[category].active
    ensures
      var slug := d.categories[category].slug;
      && SellersOf(d, visible, category) <= Listed(d, visible, slug)
      && (|Listed(d, visible, slug)| == RestaurantCount(d, visible, category) <==> SlugIsOwn(d, visible, category))
      && (SlugIsOwn(d, visible, category) ==> Listed(d, visible, slug) == SellersOf(d, visible, category))
  {
    var slug := d.categories[category].slug;
    var listed, sellers := Listed(d, visible, slug), SellersOf(d, visible, category);
    ListedThrough(d, visible, slug, category);
    if SlugIsOwn(d, visible, category) {
      forall r | r in listed
        ensures r in sellers
      {
        var id, c :| id in d.sections && d.sections[id].restaurant == r && c in d.categories
          && SellsHere(d.sections[id], c) && Opens(d.categories[c], slug) && d.categories[c].active;
        assert r in SellersOf(d, visible, c);
      }
      assert listed == sellers;
    } else {
      var other :| other in d.categories && other != category && d.categories[other].active
        && Opens(d.categories[other], slug) && !(SellersOf(d, visible, other) <= sellers);
      ListedThrough(d, visible, slug, other);
      var r :| r in SellersOf(d, visible, other) && r !in sellers;
      StrictlyMore(sellers, listed, r);
    }
  }

  lemma StrictlyMore(small: set<nat>, large: set<nat>, extra: nat)
    requires small <= large && extra in large && extra !in small
    ensures |small| < |large|
  {
    var rest := large - small - {extra};
    assert large == small + ({extra} + rest);
  }

  /** The directory without the sections linked to one category. */
  function Unlinked(d: Directory, category: nat): Directory
  {
    d.(sections := map id | id in d.sections && d.sections[id].category != Some(category) :: d.sections[id])
  }

  /** A category created for a vendor's section shows nowhere: whatever sections are
      then linked to it, no slug, its own included, lists a restaurant that it would
      not list without them. */
  lemma NewCategoryListsNobody(d: Directory, name: string, newId: nat, now: int, sha: Digest, visible: set<nat>,
                               slug: string, sections: map<nat, Section>)
    requires newId !in d.categories
    ensures
      var d' := Directory(d.categories[newId := Pending(name, now, sha)], sections);
      && Listed(d', visible, slug) == Listed(Unlinked(d.(sections := sections), newId), visible, slug)
      && (Unlinked(d.(sections := sections), newId).sections == d.sections ==>
            Listed(d', visible, slug) == Listed(d, visible, slug))
  {
    var d' := Directory(d.categories[newId := Pending(name, now, sha)], sections);
    HiddenListsNobody(d', newId, visible, slug);
    SameLinkedSameListed(Unlinked(d', newId), Unlinked(d.(sections := sections), newId), newId, visible, slug);
  }

  /** A hidden category adds nobody to any list. */
  lemma HiddenListsNobody(d: Directory, category: nat, visible: set<nat>, slug: string)
    requires category in d.categories && !d.categories[category].active
    ensures Listed(d, visible, slug) == Listed(Unlinked(d, category), visible, slug)
  {
    forall r
      ensures SellsUnder(d, r, slug) <==> SellsUnder(Unlinked(d, category), r, slug)
    {
      if id, c :| id in d.sections && d.sections[id].restaurant == r && c in d.categories
                  && SellsHere(d.sections[id], c) && Opens(d.categories[c], slug) && d.categories[c].active {
        assert id in Unlinked(d, category).sections && SellsHere(Unlinked(d, category).sections[id], c);
      }
    }
  }

  /** Everything of this category gone, only the others decide. */
  lemma SameLinkedSameListed(a: Directory, b: Directory, category: nat, visible: set<nat>, slug: string)
    requires a.sections == b.sections && category !in b.categories
    requires a.categories - {category} == b.categories
    requires forall id :: id in a.sections ==> a.sections[id].category != Some(category)
    ensures Listed(a, visible, slug) == Listed(b, visible, slug)
  {
    assert forall c :: c in b.categories ==> c in a.categories && a.categories[c] == b.categories[c] && c != category;
  }

  /** One restaurant under a category that answers to the slug of another. */
  lemma AliasedSlugLists(first: Category, second: Category, restaurant: nat)
    requires first.active && second.active && second.slug in first.aliases
    requires Sound(first) && Sound(second) && first.slug != second.slug
    ensures
      var d := Directory(map[0 := first, 1 := second], map[0 := Section(restaurant, Some(0), true, true)]);
      && Valid(d)
      && RestaurantCount(d, {restaurant}, 1) == 0 && |Listed(d, {restaurant}, second.slug)| == 1
  {
    var d := Directory(map[0 := first, 1 := second], map[0 := Section(restaurant, Some(0), true, true)]);
    assert SellersOf(d, {restaurant}, 1) == {};
    assert SellsHere(d.sections[0], 0) && Opens(d.categories[0], second.slug);
    assert SellsUnder(d, restaurant, second.slug);
    assert Listed(d, {restaurant}, second.slug) == {restaurant};
  }

  /** The chip can promise fewer: "Burgers" learned "fast-food" in a merge, and the
      name check of a new category compares slugs with slugs and aliases with keys,
      so "Fast-Food!", whose slug is "fast-food", was still accepted. */
  lemma FilterCanListMore()
    ensures
      var burgers := Category("Burgers", "burgers", {"fast-food"}, 0, true);
      var fastFood := Category("Fast-Food!", "fast-food", {}, 1, true);
      var d := Directory(map[0 := burgers, 1 := fastFood], map[0 := Section(7, Some(0), true, true)]);
      && Valid(d) && MatchKey(fastFood.name) !in burgers.aliases
      && RestaurantCount(d, {7}, 1) == 0 && |Listed(d, {7}, "fast-food")| == 1
  {
    BurgersKey();
    FastFoodKey();
    FoodSlugs();
    AliasedSlugLists(Category("Burgers", "burgers", {"fast-food"}, 0, true),
                     Category("Fast-Food!", "fast-food", {}, 1, true), 7);
  }

  lemma BurgersKey()
    ensures MatchKey("Burgers") == "burgers" != ""
  {
    NoSpacesKey("Burgers", "burgers");
  }

  lemma FastFoodKey()
    ensures MatchKey("Fast-Food!") == "fast-food!" && |"fast-food!"| == 10 && |"fast-food"| == 9
  {
    NoSpacesKey("Fast-Food!", "fast-food!");
  }

  lemma FoodSlugs()
    ensures IsSlug("burgers") && IsSlug("fast-food") && "burgers" != "fast-food"
  {
    AllAlnumIsSlug("burgers");
    assert "burgers"[0] != "fast-food"[0];
  }

  /** In particular when the slug is no other category's alias. */
  lemma UnaliasedSlugIsOwn(d: Directory, visible: set<nat>, category: nat)
    requires Valid(d) && category in d.categories
    requires forall other :: other in d.categories && other != category ==>
      d.categories[category].slug !in d.categories[other].aliases
    ensures SlugIsOwn(d, visible, category)
  {
  }

  /** A merge loses no section and no seller: every section of the source is the
      survivor's, nothing else about any section changes, and the survivor counts
      the union of the two sets of restaurants. */
  lemma MergeUnitesSellers(d: Directory, visible: set<nat>, from: nat, into: nat)
    requires from in d.categories && into in d.categories && from != into
    ensures
      var d' := Merged(d, from, into);
      && d'.sections.Keys == d.sections.Keys
      && (forall id :: id in d.sections ==>
            d'.sections[id] == d.sections[id].(category :=
              if d.sections[id].category == Some(from) then Some(into) else d.sections[id].category))
      && SellersOf(d', visible, into) == SellersOf(d, visible, from) + SellersOf(d, visible, into)
      && SellersOf(d', visible, from) == {}
      && forall other :: other != from && other != into ==>
          SellersOf(d', visible, other) == SellersOf(d, visible, other)
  {
    var d' := Merged(d, from, into);
    forall r
      ensures r in SellersOf(d', visible, into) <==> r in SellersOf(d, visible, from) + SellersOf(d, visible, into)
    {
      if r in SellersOf(d, visible, from) {
        var id :| id in d.sections && SellsHere(d.sections[id], from) && d.sections[id].restaurant == r;
        assert SellsHere(d'.sections[id], into);
      }
      if r in SellersOf(d, visible, into) {
        var id :| id in d.sections && SellsHere(d.sections[id], into) && d.sections[id].restaurant == r;
        assert SellsHere(d'.sections[id], into);
      }
    }
    forall other | other != from && other != into
      ensures SellersOf(d', visible, other) == SellersOf(d, visible, other)
    {
      assert forall id :: id in d.sections ==> SellsHere(d'.sections[id], other) == SellsHere(d.sections[id], other);
    }
  }
}
