/**
 The platform's browse categories: which category a section name belongs to,
 creating one for a new name, and folding one category into another
 (app/services/category_service.py).
 */
module CategoryDirectory {
  import opened Options
  import opened Text
  import opened CategoryNames

  datatype Category = Category(name: string, slug: string, aliases: set<string>, createdAt: int, active: bool)

  /** A vendor's menu section. `live`: it holds an undeleted, unhidden item. */
  datatype Section = Section(restaurant: nat, category: Option<nat>, active: bool, live: bool)

  datatype Directory = Directory(categories: map<nat, Category>, sections: map<nat, Section>)

  /** The unique index on slugs, and what every write keeps: slug-shaped slugs,
      no blank name, no empty alias. */
  ghost predicate Valid(d: Directory)
  {
    && (forall a, b | a in d.categories && b in d.categories :: d.categories[a].slug == d.categories[b].slug ==> a == b)
    && (forall id :: id in d.categories ==> Sound(d.categories[id]))
  }

  predicate Sound(c: Category)
  {
    IsSlug(c.slug) && MatchKey(c.name) != "" && "" !in c.aliases
  }

  // --- find_by_name ---------------------------------------------------------------

  /** The two forms of a section name that the lookup compares. */
  datatype Forms = Forms(key: string, slug: string)

  function FormsOf(name: string, sha: Digest): Forms { Forms(MatchKey(name), SlugFor(name, sha)) }

  predicate Reached(slug: string, lowered: string, aliases: set<string>, f: Forms)
  {
    slug == f.slug || lowered == f.key || f.key in aliases || f.slug in aliases
  }

  /** The WHERE of `find_by_name`. */
  predicate Matches(c: Category, name: string, sha: Digest)
  {
    Reached(c.slug, Lower(c.name), c.aliases, FormsOf(name, sha))
  }

  /** The CASE of its ORDER BY. */
  function Rank(c: Category, name: string, sha: Digest): nat
  {
    if c.slug == SlugFor(name, sha) then 0 else if Lower(c.name) == MatchKey(name) then 1 else 2
  }

  predicate Before(a: Category, b: Category, name: string, sha: Digest)
  {
    Rank(a, name, sha) < Rank(b, name, sha)
    || (Rank(a, name, sha) == Rank(b, name, sha) && a.createdAt < b.createdAt)
  }

  /** A row of a query that keeps `wanted` rows, sorts by `before`, and takes one.
      Rows that tie come in no promised order. */
  ghost predicate First(rows: map<nat, Category>, wanted: Category -> bool, before: (Category, Category) -> bool,
                        id: nat)
  {
    && id in rows && wanted(rows[id])
    && forall other :: other in rows && wanted(rows[other]) ==> !before(rows[other], rows[id])
  }

  /** `find_by_name` may return this category. */
  ghost predicate Finds(d: Directory, name: string, sha: Digest, id: nat)
  {
    First(d.categories, c => Matches(c, name, sha), (a, b) => Before(a, b, name, sha), id)
  }

  lemma OnlyOneWanted(rows: map<nat, Category>, wanted: Category -> bool, before: (Category, Category) -> bool,
                      only: nat, id: nat)
    requires only in rows && wanted(rows[only]) && !before(rows[only], rows[only])
    requires forall other :: other in rows && other != only ==> !wanted(rows[other])
    ensures First(rows, wanted, before, id) <==> id == only
  {
  }

  lemma OnlyMatchIsFound(d: Directory, name: string, sha: Digest, only: nat)
    requires only in d.categories && Matches(d.categories[only], name, sha)
    requires forall other :: other in d.categories && other != only ==> !Matches(d.categories[other], name, sha)
    ensures forall id :: Finds(d, name, sha, id) <==> id == only
  {
    forall id
      ensures Finds(d, name, sha, id) <==> id == only
    {
      OnlyOneWanted(d.categories, c => Matches(c, name, sha), (a, b) => Before(a, b, name, sha), only, id);
    }
  }

  /** Slugs come first, names next, aliases last, and the older of two goes before the
      newer: a category that has the name's slug is found, whatever else matches; where
      there is none, one that has the name; and only then one that answers to it. */
  lemma BestMatchIsFound(d: Directory, name: string, sha: Digest, id: nat, other: nat)
    requires Valid(d) && Finds(d, name, sha, id) && other in d.categories
    ensures
      var slug, key, c, o := SlugFor(name, sha), MatchKey(name), d.categories[id], d.categories[other];
      && (o.slug == slug ==> id == other)
      && (c.slug != slug && Lower(o.name) == key ==> Lower(c.name) == key && c.createdAt <= o.createdAt)
      && (c.slug != slug && Lower(c.name) != key ==>
            && (key in c.aliases || slug in c.aliases)
            && (key in o.aliases || slug in o.aliases ==> c.createdAt <= o.createdAt))
  {
  }

  // --- The writes as functions on the directory -------------------------------------

  /** What the survivor answers to besides its name and slug. */
  function Learned(source: Category, target: Category): set<string>
  {
    target.aliases + {MatchKey(source.name), source.slug} + source.aliases
  }

  function Survivor(source: Category, target: Category): Category
  {
    target.(aliases := Learned(source, target) - {MatchKey(target.name), target.slug, ""})
  }

  function MovedSections(sections: map<nat, Section>, from: nat, into: nat): map<nat, Section>
  {
    map id | id in sections ::
      if sections[id].category == Some(from) then sections[id].(category := Some(into)) else sections[id]
  }

  function Merged(d: Directory, from: nat, into: nat): Directory
    requires from in d.categories && into in d.categories
  {
    Directory((d.categories - {from})[into := Survivor(d.categories[from], d.categories[into])],
              MovedSections(d.sections, from, into))
  }

  /** A category made by a vendor's section name: hidden. */
  function Pending(name: string, now: int, sha: Digest): Category
  {
    Category(DisplayName(name), SlugFor(name, sha), {}, now, false)
  }

  // --- The mutable tables --------------------------------------------------------------

  datatype MergeError = IntoItself | SourceNotFound | TargetNotFound

  class CategoryTables {
    var categories: map<nat, Category>
    var sections: map<nat, Section>

    function State(): Directory
      reads this
    {
      Directory(categories, sections)
    }

    constructor (d: Directory)
      ensures State() == d
    {
      categories, sections := d.categories, d.sections;
    }

    method AdminMerge(from: nat, into: nat) returns (error: Option<MergeError>)
      modifies this
      ensures error == if into == from then Some(IntoItself)
                       else if from !in old(categories) then Some(SourceNotFound)
                       else if into !in old(categories) then Some(TargetNotFound)
                       else None
      ensures State() == if error.None? then Merged(old(State()), from, into) else old(State())
    {
      if into == from { return Some(IntoItself); }
      if from !in categories { return Some(SourceNotFound); }
      if into !in categories { return Some(TargetNotFound); }
      var source, target := categories[from], categories[into];
      sections := MovedSections(sections, from, into);
      var learned := {MatchKey(source.name), source.slug} + source.aliases;
      target := target.(aliases := (target.aliases + learned) - {MatchKey(target.name), target.slug, ""});
      categories := (categories - {from})[into := target];
      assert target == Survivor(old(categories)[from], old(categories)[into]);
      return None;
    }

    /** `found` is what `find_by_name` returned, possibly some time ago. A new name
        is inserted unless its slug has been taken meanwhile (ON CONFLICT DO
        NOTHING); then the row that took it is the answer. */
    method Resolve(name: string, found: Option<nat>, newId: nat, now: int, sha: Digest) returns (id: nat)
      requires found.Some? ==> found.value in categories
      requires newId !in categories
      modifies this
      ensures found.Some? ==> id == found.value && State() == old(State())
      ensures found.None? ==> id in categories && categories[id].slug == SlugFor(name, sha)
      ensures found.None? ==>
        State() == if id in old(categories) then old(State())
                   else old(State()).(categories := old(categories)[newId := Pending(name, now, sha)])
      ensures found.None? && id !in old(categories) ==>
        && id == newId && !categories[id].active && categories[id].aliases == {} && categories[id].createdAt == now
        && categories[id].name == DisplayName(name) && categories[id].slug == SlugFor(name, sha)
        && forall other :: other in old(categories) ==> old(categories)[other].slug != SlugFor(name, sha)
    {
      if found.Some? { return found.value; }
      var slug := SlugFor(name, sha);
      if winner :| winner in categories && categories[winner].slug == slug {
        return winner;
      }
      categories := categories[newId := Pending(name, now, sha)];
      return newId;
    }
  }

  /** Once resolved, a name stays resolved: looking it up again finds the category
      it was given, and only that one. */
  lemma ResolveIsStable(d: Directory, name: string, newId: nat, now: int, sha: Digest)
    requires newId !in d.categories
    requires forall c :: c in d.categories ==> !Matches(d.categories[c], name, sha)
    ensures
      var d' := d.(categories := d.categories[newId := Pending(name, now, sha)]);
      forall id :: Finds(d', name, sha, id) <==> id == newId
  {
  }

  lemma AddKeepsValid(d: Directory, id: nat, c: Category)
    requires Valid(d) && id !in d.categories && Sound(c)
    requires forall other :: other in d.categories ==> d.categories[other].slug != c.slug
    ensures Valid(d.(categories := d.categories[id := c]))
  {
  }

  /** Creating a category keeps the directory valid. */
  lemma ResolveKeepsValid(d: Directory, name: string, newId: nat, now: int, sha: Digest)
    requires Valid(d) && newId !in d.categories && MatchKey(name) != ""
    requires forall c :: c in d.categories ==> d.categories[c].slug != SlugFor(name, sha)
    ensures Valid(d.(categories := d.categories[newId := Pending(name, now, sha)]))
  {
    SlugOfKeyIsSlug(MatchKey(name), sha);
    DisplayNotBlank(name);
    AddKeepsValid(d, newId, Pending(name, now, sha));
  }

  // --- Merging ------------------------------------------------------------------------

  /** The survivor's slug is still the slug of its name: it was never renamed away
      from it. */
  predicate WellNamed(c: Category, sha: Digest) { c.slug == SlugFor(c.name, sha) }

  /** The set arithmetic of a merge, over names already reduced to their forms.
      `key` is the survivor's own key. */
  lemma FormsKept(source: Category, target: Category, sourceLow: string, targetLow: string, sourceKey: string,
                  key: string, f: Forms)
    requires Reached(source.slug, sourceLow, source.aliases, f) || Reached(target.slug, targetLow, target.aliases, f)
    requires sourceLow == f.key ==> sourceKey == f.key
    requires f.slug != "" && sourceKey != "" && source.slug != "" && "" !in source.aliases && "" !in target.aliases
    requires f.key in {key, target.slug} || f.slug in {key, target.slug} ==>
      Reached(target.slug, targetLow,
          (target.aliases + {sourceKey, source.slug} + source.aliases) - {key, target.slug, ""}, f)
    ensures Reached(target.slug, targetLow,
        (target.aliases + {sourceKey, source.slug} + source.aliases) - {key, target.slug, ""}, f)
  {
  }

  /** So only names touched by the subtraction need looking at. */
  lemma UnsubtractedKept(source: Category, target: Category, name: string, sha: Digest)
    requires Sound(source) && Sound(target)
    requires Matches(source, name, sha) || Matches(target, name, sha)
    requires
      var own := {MatchKey(target.name), target.slug};
      MatchKey(name) in own || SlugFor(name, sha) in own ==> Matches(Survivor(source, target), name, sha)
    ensures Matches(Survivor(source, target), name, sha)
  {
    var f := FormsOf(name, sha);
    SlugOfKeyIsSlug(MatchKey(name), sha);
    if Lower(source.name) == f.key { LowerIsKey(source.name, name); }
    FormsKept(source, target, Lower(source.name), Lower(target.name), MatchKey(source.name), MatchKey(target.name), f);
  }

  /** A name whose key or slug is one of the subtracted spellings matches a
      well-named survivor by slug. */
  lemma SubtractedStillMatches(target: Category, name: string, sha: Digest)
    requires Sound(target) && WellNamed(target, sha)
    requires MatchKey(name) in {MatchKey(target.name), target.slug}
      || SlugFor(name, sha) in {MatchKey(target.name), target.slug}
    ensures target.slug == SlugFor(name, sha)
  {
    SlugKeepsItself(target.slug, sha);
    SlugOfKeyIsSlug(MatchKey(name), sha);
    SlugKeepsItself(SlugFor(name, sha), sha);
  }

  /** No spelling is lost by merging into a well-named survivor: every name that
      matched either category matches it afterwards. */
  lemma MergeKeepsSpelling(source: Category, target: Category, name: string, sha: Digest)
    requires Sound(source) && Sound(target) && WellNamed(target, sha)
    requires Matches(source, name, sha) || Matches(target, name, sha)
    ensures Matches(Survivor(source, target), name, sha)
  {
    var own := {MatchKey(target.name), target.slug};
    if MatchKey(name) in own || SlugFor(name, sha) in own {
      SubtractedStillMatches(target, name, sha);
    }
    UnsubtractedKept(source, target, name, sha);
  }

  ghost predicate KeepsEverySpelling(source: Category, target: Category, sha: Digest)
  {
    forall name :: Matches(source, name, sha) || Matches(target, name, sha) ==>
      Matches(Survivor(source, target), name, sha)
  }

  /** Spellings both categories answer to as aliases before the merge. */
  function Aliases(source: Category, target: Category): set<string> { source.aliases + target.aliases }

  /** The survivor's own name, as a key, still reaches it after the merge if it
      reached either category before. */
  predicate OwnKeySafe(source: Category, target: Category, sha: Digest)
  {
    var key, slug := MatchKey(target.name), SlugFor(target.name, sha);
    || Lower(target.name) == key
    || slug in Survivor(source, target).aliases
    || !(source.slug == slug || Lower(source.name) == key || key in Aliases(source, target)
       || slug in Aliases(source, target))
  }

  /** Its own name, as a slug, was not something either category answered to. */
  predicate OwnSlugSafe(source: Category, target: Category)
  {
    var key := MatchKey(target.name);
    !(IsSlug(key) && (source.slug == key || key in Aliases(source, target)))
  }

  /** Can be checked before the merge. */
  predicate LosesNothing(source: Category, target: Category, sha: Digest)
  {
    WellNamed(target, sha) || (OwnKeySafe(source, target, sha) && OwnSlugSafe(source, target))
  }

  /** A bound on the lengths of the strings in a set. */
  lemma LongestIn(strings: set<string>) returns (n: nat)
    ensures forall s :: s in strings ==> |s| <= n
  {
    if strings == {} {
      n := 0;
    } else {
      var s :| s in strings;
      var m := LongestIn(strings - {s});
      n := if |s| > m then |s| else m;
      assert forall r :: r in strings ==> r == s || r in strings - {s};
    }
  }

  /** With a renamed survivor, a subtracted slug loses infinitely many spellings:
      here is one. */
  lemma LostBySlug(source: Category, target: Category, sha: Digest) returns (name: string)
    requires Sound(source) && Sound(target) && !WellNamed(target, sha) && !OwnSlugSafe(source, target)
    ensures Matches(source, name, sha) || Matches(target, name, sha)
    ensures !Matches(Survivor(source, target), name, sha)
  {
    var key := MatchKey(target.name);
    var n := LongestIn(Survivor(source, target).aliases);
    name := key + Bangs(n + 1);
    BangedSpelling(key, n + 1, sha);
    SlugKeepsItself(key, sha);
    if Lower(target.name) == MatchKey(name) {
      LowerIsKey(target.name, name);
    }
  }

  /** The name that is its own key. */
  lemma LostByKey(source: Category, target: Category, sha: Digest) returns (name: string)
    requires Sound(source) && Sound(target) && source.slug != target.slug
    requires !WellNamed(target, sha) && !OwnKeySafe(source, target, sha)
    ensures Matches(source, name, sha) || Matches(target, name, sha)
    ensures !Matches(Survivor(source, target), name, sha)
  {
    name := MatchKey(target.name);
    MatchKeyIdempotent(target.name);
  }

  lemma FormsSafe(source: Category, target: Category, sourceLow: string, targetLow: string,
                  sourceKey: string, key: string, ownSlug: string, f: Forms)
    requires Reached(source.slug, sourceLow, source.aliases, f) || Reached(target.slug, targetLow, target.aliases, f)
    requires sourceLow == f.key ==> sourceKey == f.key
    requires f.slug != "" && sourceKey != "" && source.slug != "" && "" !in source.aliases && "" !in target.aliases
    requires source.slug != target.slug && (f.key == target.slug ==> f.slug == target.slug)
    requires f.key == key ==> f.slug == ownSlug
    requires f.key == key ==>
      || targetLow == key
      || ownSlug in (target.aliases + {sourceKey, source.slug} + source.aliases) - {key, target.slug, ""}
      || !(source.slug == ownSlug || sourceLow == key || key in Aliases(source, target)
         || ownSlug in Aliases(source, target))
    requires f.slug == key ==> source.slug != key && key !in Aliases(source, target)
    ensures Reached(target.slug, targetLow,
        (target.aliases + {sourceKey, source.slug} + source.aliases) - {key, target.slug, ""}, f)
  {
  }

  lemma SafeKeepsSpelling(source: Category, target: Category, name: string, sha: Digest)
    requires Sound(source) && Sound(target) && source.slug != target.slug
    requires OwnKeySafe(source, target, sha) && OwnSlugSafe(source, target)
    requires Matches(source, name, sha) || Matches(target, name, sha)
    ensures Matches(Survivor(source, target), name, sha)
  {
    var f := FormsOf(name, sha);
    SlugOfKeyIsSlug(f.key, sha);
    SlugKeepsItself(target.slug, sha);
    if Lower(source.name) == f.key { LowerIsKey(source.name, name); }
    FormsSafe(source, target, Lower(source.name), Lower(target.name), MatchKey(source.name), MatchKey(target.name),
              SlugFor(target.name, sha), f);
  }

  /** Merging loses no spelling exactly when the survivor is well named, or the
      name that is subtracted from its aliases was not needed to reach it. */
  lemma MergeKeepsEverySpellingIff(source: Category, target: Category, sha: Digest)
    requires Sound(source) && Sound(target) && source.slug != target.slug
    ensures KeepsEverySpelling(source, target, sha) <==> LosesNothing(source, target, sha)
  {
    if WellNamed(target, sha) {
      forall name | Matches(source, name, sha) || Matches(target, name, sha)
        ensures Matches(Survivor(source, target), name, sha)
      {
        MergeKeepsSpelling(source, target, name, sha);
      }
    } else if !OwnSlugSafe(source, target) {
      var name := LostBySlug(source, target, sha);
    } else if !OwnKeySafe(source, target, sha) {
      var name := LostByKey(source, target, sha);
    } else {
      forall name | Matches(source, name, sha) || Matches(target, name, sha)
        ensures Matches(Survivor(source, target), name, sha)
      {
        SafeKeepsSpelling(source, target, name, sha);
      }
    }
  }

  lemma OnlySurvivorWanted(d: Directory, from: nat, into: nat, wanted: Category -> bool)
    requires from in d.categories && into in d.categories && from != into
    requires forall c :: c in d.categories && c != from && c != into ==> !wanted(d.categories[c])
    ensures forall c :: c in Merged(d, from, into).categories && c != into ==>
      !wanted(Merged(d, from, into).categories[c])
  {
  }

  lemma FoundMatches(d: Directory, name: string, sha: Digest, id: nat)
    requires Finds(d, name, sha, id)
    ensures id in d.categories && Matches(d.categories[id], name, sha)
  {
  }

  lemma KeepsThis(source: Category, target: Category, name: string, sha: Digest)
    requires KeepsEverySpelling(source, target, sha)
    requires Matches(source, name, sha) || Matches(target, name, sha)
    ensures Matches(Survivor(source, target), name, sha)
  {
  }

  /** At the level of the lookup: a name that resolved to either category resolves
      to the survivor, when no third category matches it too. */
  lemma MergeKeepsResolution(d: Directory, from: nat, into: nat, name: string, sha: Digest, found: nat)
    requires from in d.categories && into in d.categories && from != into
    requires Valid(d) && LosesNothing(d.categories[from], d.categories[into], sha)
    requires found in {from, into} && Finds(d, name, sha, found)
    requires forall c :: c in d.categories && c != from && c != into ==> !Matches(d.categories[c], name, sha)
    ensures forall id :: Finds(Merged(d, from, into), name, sha, id) <==> id == into
  {
    FoundMatches(d, name, sha, found);
    MergeKeepsEverySpellingIff(d.categories[from], d.categories[into], sha);
    KeepsThis(d.categories[from], d.categories[into], name, sha);
    OnlySurvivorWanted(d, from, into, c => Matches(c, name, sha));
    OnlyMatchIsFound(Merged(d, from, into), name, sha, into);
  }

  lemma MergeKeepsValid(d: Directory, from: nat, into: nat)
    requires Valid(d) && from in d.categories && into in d.categories && from != into
    ensures Valid(Merged(d, from, into))
  {
  }

  lemma NoSpacesKey(name: string, key: string)
    requires |key| == |name| && forall i :: 0 <= i < |name| ==> !IsSpace(name[i]) && key[i] == LowerChar(name[i])
    ensures Lower(name) == MatchKey(name) == key
  {
    SqueezedIsFixed(name);
    assert Lower(name) == key;
  }

  lemma AllAlnumIsSlug(s: string)
    requires 0 < |s| <= 100 && forall i :: 0 <= i < |s| ==> IsAlnum(s[i])
    ensures IsSlug(s)
  {
  }

  /** The case is real: a survivor whose name now reads the same as the slug it
      absorbs, but whose own slug is another, forgets spellings of that slug. */
  lemma RenamedSurvivorForgets(source: Category, target: Category, sha: Digest)
    requires Sound(source) && Sound(target) && source.slug != target.slug
    requires source.slug == MatchKey(target.name)
    ensures !KeepsEverySpelling(source, target, sha)
  {
    SlugKeepsItself(source.slug, sha);
    MergeKeepsEverySpellingIff(source, target, sha);
  }

  /** Such a pair: slug "pizza", and "Pizza" whose slug is still "pizzas". */
  lemma RenamedSurvivorExists()
    ensures
      var source := Category("Flatbread", "pizza", {}, 0, true);
      var target := Category("Pizza", "pizzas", {}, 1, true);
      Sound(source) && Sound(target) && source.slug != target.slug && source.slug == MatchKey(target.name)
  {
    PizzaSlugs();
    PizzaKeys();
  }

  lemma PizzaSlugs()
    ensures IsSlug("pizza") && IsSlug("pizzas") && |"pizza"| != |"pizzas"|
  {
    AllAlnumIsSlug("pizza");
    AllAlnumIsSlug("pizzas");
  }

  lemma PizzaKeys()
    ensures MatchKey("Flatbread") == "flatbread" && MatchKey("Pizza") == "pizza"
  {
    FlatbreadKey();
    NoSpacesKey("Pizza", "pizza");
  }

  /** A lookup's winner, compared with every other row that matches. */
  lemma WinsIff(rows: map<nat, Category>, wanted: Category -> bool, before: (Category, Category) -> bool, id: nat)
    requires id in rows && wanted(rows[id]) && !before(rows[id], rows[id])
    ensures First(rows, wanted, before, id)
       <==> forall other :: other in rows && other != id && wanted(rows[other]) ==> !before(rows[other], rows[id])
  {
  }

  /** After a merge that loses nothing, a name that matched either category finds
      the survivor if and only if no third category that matches it comes before
      the target: all of it can be read before the merge. */
  lemma MergeFindsSurvivorIff(d: Directory, from: nat, into: nat, name: string, sha: Digest)
    requires Valid(d) && from in d.categories && into in d.categories && from != into
    requires LosesNothing(d.categories[from], d.categories[into], sha)
    requires Matches(d.categories[from], name, sha) || Matches(d.categories[into], name, sha)
    ensures Finds(Merged(d, from, into), name, sha, into) <==>
      forall third ::
        third in d.categories && third != from && third != into && Matches(d.categories[third], name, sha) ==>
        !Before(d.categories[third], d.categories[into], name, sha)
  {
    MergeKeepsEverySpellingIff(d.categories[from], d.categories[into], sha);
    KeepsThis(d.categories[from], d.categories[into], name, sha);
    SameRank(d.categories[from], d.categories[into], name, sha);
    OthersUnmerged(d, from, into, c => Matches(c, name, sha), (a, b) => Before(a, b, name, sha));
  }

  lemma OthersUnmerged(d: Directory, from: nat, into: nat, wanted: Category -> bool,
                       before: (Category, Category) -> bool)
    requires from in d.categories && into in d.categories && from != into
    requires
      var survivor := Survivor(d.categories[from], d.categories[into]);
      wanted(survivor) && !before(survivor, survivor) && forall c ::
        before(c, survivor) <==> before(c, d.categories[into])
    ensures First(Merged(d, from, into).categories, wanted, before, into) <==>
      forall third :: third in d.categories && third != from && third != into && wanted(d.categories[third]) ==>
        !before(d.categories[third], d.categories[into])
  {
    var rows := Merged(d, from, into).categories;
    WinsIff(rows, wanted, before, into);
    assert forall third :: third in rows && third != into <==> third in d.categories && third != from && third != into;
    assert forall third :: third in rows && third != into ==> rows[third] == d.categories[third];
  }

  lemma SameRank(source: Category, target: Category, name: string, sha: Digest)
    ensures forall c :: Before(c, Survivor(source, target), name, sha) <==> Before(c, target, name, sha)
  {
  }

  /** A takeover: before the merge the name found the source; after it the survivor
      answers by alias alone, and a third category comes first. */
  lemma Takeover(d: Directory, from: nat, into: nat, third: nat, name: string, sha: Digest)
    requires Valid(d) && d.categories.Keys == {from, into, third} && from != into && from != third && into != third
    requires LosesNothing(d.categories[from], d.categories[into], sha)
    requires Matches(d.categories[from], name, sha) && !Before(d.categories[from], d.categories[from], name, sha)
    requires !Before(d.categories[third], d.categories[from], name, sha) && !Matches(d.categories[into], name, sha)
    requires Matches(d.categories[third], name, sha) && Before(d.categories[third], d.categories[into], name, sha)
    ensures Finds(d, name, sha, from) && !Finds(Merged(d, from, into), name, sha, into)
  {
    MergeFindsSurvivorIff(d, from, into, name, sha);
    FoundAmongThree(d, from, into, third, name, sha);
  }

  lemma FoundAmongThree(d: Directory, from: nat, into: nat, third: nat, name: string, sha: Digest)
    requires d.categories.Keys == {from, into, third}
    requires Matches(d.categories[from], name, sha) && !Before(d.categories[from], d.categories[from], name, sha)
    requires !Before(d.categories[third], d.categories[from], name, sha) && !Matches(d.categories[into], name, sha)
    ensures Finds(d, name, sha, from)
  {
    WinsIff(d.categories, c => Matches(c, name, sha), (a, b) => Before(a, b, name, sha), from);
  }

  /** Matching and rank, from the name's two forms. */
  lemma ByForms(c: Category, name: string, sha: Digest, low: string, f: Forms)
    requires f == FormsOf(name, sha) && low == Lower(c.name)
    ensures Matches(c, name, sha) <==> Reached(c.slug, low, c.aliases, f)
    ensures Rank(c, name, sha) == if c.slug == f.slug then 0 else if low == f.key then 1 else 2
  {
  }

  lemma ThreeAreValid(source: Category, target: Category, third: Category)
    requires Sound(source) && Sound(target) && Sound(third)
    requires source.slug != target.slug && source.slug != third.slug && target.slug != third.slug
    ensures Valid(Directory(map[0 := source, 1 := target, 2 := third], map[]))
  {
  }

  /** Such a directory: "Pizza!" found the category whose slug is "pizza", and then
      finds the one renamed to it. */
  lemma TakeoverExists(sha: Digest)
    ensures
      var source := Category("Flatbread", "pizza", {}, 0, true);
      var target := Category("Focaccia", "focaccia", {}, 1, true);
      var d := Directory(map[0 := source, 1 := target, 2 := Category("Pizza!", "calzone", {}, 2, true)], map[]);
      && Valid(d) && LosesNothing(source, target, sha)
      && Finds(d, "Pizza!", sha, 0) && !Finds(Merged(d, 0, 1), "Pizza!", sha, 1)
  {
    PizzaForms(sha);
    TakeoverByForms("Flatbread", "flatbread", "pizza", "Focaccia", "focaccia", "Pizza!", "pizza!", "calzone", sha);
  }

  /** The same, whatever the spellings. */
  lemma TakeoverByForms(a: string, aLow: string, aSlug: string, b: string, bSlug: string,
                        c: string, cLow: string, cSlug: string, sha: Digest)
    requires aLow == Lower(a) == MatchKey(a) && bSlug == Lower(b) == MatchKey(b) && cLow == Lower(c) == MatchKey(c)
    requires aLow != "" && bSlug != "" && cLow != "" && IsSlug(aSlug) && IsSlug(bSlug) && IsSlug(cSlug)
    requires SlugFor(b, sha) == bSlug && SlugFor(c, sha) == aSlug
    requires aSlug != bSlug && aSlug != cSlug && bSlug != cSlug && bSlug != cLow && cLow != aLow
    ensures
      var source, target := Category(a, aSlug, {}, 0, true), Category(b, bSlug, {}, 1, true);
      var d := Directory(map[0 := source, 1 := target, 2 := Category(c, cSlug, {}, 2, true)], map[]);
      Valid(d) && LosesNothing(source, target, sha) && Finds(d, c, sha, 0) && !Finds(Merged(d, 0, 1), c, sha, 1)
  {
    var source, target := Category(a, aSlug, {}, 0, true), Category(b, bSlug, {}, 1, true);
    var third := Category(c, cSlug, {}, 2, true);
    var f := Forms(cLow, aSlug);
    ByForms(source, c, sha, aLow, f);
    ByForms(target, c, sha, bSlug, f);
    ByForms(third, c, sha, cLow, f);
    ThreeAreValid(source, target, third);
    var d := Directory(map[0 := source, 1 := target, 2 := third], map[]);
    assert d.categories.Keys == {0, 1, 2};
    Takeover(d, 0, 1, 2, c, sha);
  }

  lemma PizzaForms(sha: Digest)
    ensures "flatbread" == Lower("Flatbread") == MatchKey("Flatbread")
    ensures "focaccia" == Lower("Focaccia") == MatchKey("Focaccia") && SlugFor("Focaccia", sha) == "focaccia"
    ensures "pizza!" == Lower("Pizza!") == MatchKey("Pizza!") && SlugFor("Pizza!", sha) == "pizza"
    ensures IsSlug("pizza") && IsSlug("focaccia") && IsSlug("calzone")
    ensures "pizza" != "focaccia" && "pizza" != "calzone" && "focaccia" != "calzone" && "focaccia" != "pizza!"
    ensures "pizza!" != "flatbread"
  {
    FlatbreadKey();
    FocacciaKey();
    PizzaBangKey();
    ThreeSlugs();
    SlugKeepsItself("focaccia", sha);
    PizzaBang(sha);
  }

  lemma FlatbreadKey()
    ensures "flatbread" == Lower("Flatbread") == MatchKey("Flatbread")
  {
    NoSpacesKey("Flatbread", "flatbread");
  }

  lemma FocacciaKey()
    ensures "focaccia" == Lower("Focaccia") == MatchKey("Focaccia")
  {
    NoSpacesKey("Focaccia", "focaccia");
  }

  lemma PizzaBangKey()
    ensures "pizza!" == Lower("Pizza!") == MatchKey("Pizza!")
  {
    NoSpacesKey("Pizza!", "pizza!");
  }

  lemma ThreeSlugs()
    ensures IsSlug("pizza") && IsSlug("focaccia") && IsSlug("calzone")
    ensures "pizza" != "focaccia" && "pizza" != "calzone" && "focaccia" != "calzone" && "focaccia" != "pizza!"
    ensures "pizza!" != "flatbread"
  {
    AllAlnumIsSlug("pizza");
    AllAlnumIsSlug("focaccia");
    AllAlnumIsSlug("calzone");
    assert "pizza"[0] != "focaccia"[0] && "pizza"[0] != "calzone"[0] && "focaccia"[0] != "calzone"[0];
    assert "pizza!"[0] != "focaccia"[0] && "pizza!"[0] != "flatbread"[0];
  }

  lemma PizzaBang(sha: Digest)
    ensures SlugOfKey("pizza!", sha) == "pizza"
  {
    AllAlnumIsSlug("pizza");
    BangedSpelling("pizza", 1, sha);
    assert Bangs(1) == "!";
    assert "pizza" + "!" == "pizza!";
  }

  // --- Links and sections ---------------------------------------------------------------

  /** `by_slug`: the category a public slug opens. */
  predicate Opens(c: Category, slug: string) { c.slug == slug || slug in c.aliases }

  /** A link shared before the merge still opens the survivor, unless the old slug
      reads the same as the survivor's name, which is subtracted. */
  lemma OldLinkStillOpensIff(source: Category, target: Category)
    requires Sound(source) && source.slug != target.slug
    ensures Opens(Survivor(source, target), source.slug) <==> source.slug != MatchKey(target.name)
  {
  }

  /** For a well-named survivor it always does. */
  lemma OldLinkOpensWellNamed(source: Category, target: Category, sha: Digest)
    requires Sound(source) && Sound(target) && source.slug != target.slug && WellNamed(target, sha)
    ensures Opens(Survivor(source, target), source.slug)
  {
    SlugKeepsItself(source.slug, sha);
    OldLinkStillOpensIff(source, target);
  }
}
