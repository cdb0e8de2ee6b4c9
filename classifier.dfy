/** categorize(): turns what the catalog says about one post into the
    destination subdirectory, relative to the chosen root. The three catalog
    queries the source makes (does the post exist, its tags, its rating) are
    inputs here; the Catalog module answers them. */
module Classifier {
  import opened Strings
  import opened Tags

  /** The settings categorize() reads: REQUIRE_ALL_TAGS, REQUIRE_ONE_TAG (space
      separated tag lists, '' when unset), BY_RATING and BY_INTERACTION. */
  datatype Config = Config(requireAllTags: string, requireOneTag: string, byRating: bool, byInteraction: bool)

  /** The subdirectory, and the lines the source collects as debug data
      (the names of conflicting tags; empty when there is no conflict). */
  datatype Classification = Classification(path: string, notes: seq<string>)

  /** The root-choice rule of the main loop: a path beginning with "!" is an
      outcome the user has to look at and stays under the source directory. */
  predicate Flagged(path: string) {
    path != [] && path[0] == '!'
  }

  // ---------------------------------------------------------------------------
  // Required-tag gates

  /** Some required-tag setting is non-empty (PHP's !empty on either). */
  predicate GatesConfigured(cfg: Config) {
    !PhpEmpty(cfg.requireAllTags) || !PhpEmpty(cfg.requireOneTag)
  }

  /** Every space-separated term of REQUIRE_ALL_TAGS is a tag of the post. */
  predicate HasAll(required: string, flat: seq<string>) {
    forall t :: t in Split(required, ' ') ==> t in flat
  }

  /** Some space-separated term of REQUIRE_ONE_TAG is a tag of the post. */
  predicate HasOne(required: string, flat: seq<string>) {
    exists t :: t in Split(required, ' ') && t in flat
  }

  /** Both gates, each checked only when its setting is non-empty. */
  predicate PassesGates(cfg: Config, flat: seq<string>) {
    && (PhpEmpty(cfg.requireAllTags) || HasAll(cfg.requireAllTags, flat))
    && (PhpEmpty(cfg.requireOneTag) || HasOne(cfg.requireOneTag, flat))
  }

  /** The gates reject the post: they are configured, the tags could be fetched,
      and one of them fails. Without tags the gates are skipped. */
  predicate Rejected(cfg: Config, tags: Option<seq<Category>>) {
    GatesConfigured(cfg) && tags.Some? && !PassesGates(cfg, TagsAsOneArray(tags.value))
  }

  // ---------------------------------------------------------------------------
  // Rating

  /** The folder for a rating: e, q and s only; anything else (including no
      rating or the empty rating) has none. */
  function RatingFolder(rating: Option<string>): Option<string> {
    if rating.None? || PhpEmpty(rating.value) then None
    else if rating.value == "e" then Some("Explicit")
    else if rating.value == "q" then Some("Questionable")
    else if rating.value == "s" then Some("Safe")
    else None
  }

  // ---------------------------------------------------------------------------
  // Interaction segment

  /** The segment under "solo": the gender, "! Conflict" when several genders
      match (their names become the notes), "Unknown" when none does. */
  function SoloSegment(flat: seq<string>): (string, seq<string>) {
    match CheckForGenderTag(flat)
    case Conflict(names) => ("Solo" + [DS] + "! Conflict", names)
    case Match(g) => if !PhpEmpty(g) then ("Solo" + [DS] + g, []) else ("Solo" + [DS] + "Unknown", [])
    case NoMatch => ("Solo" + [DS] + "Unknown", [])
  }

  /** What "solo_focus" adds to an interaction that has no separator yet:
      "/Solo focus", then the gender when exactly one matches. */
  function SoloFocus(flat: seq<string>): string {
    [DS] + "Solo focus" +
    (match CheckForGenderTag(flat)
     case Match(g) => if !PhpEmpty(g) then [DS] + g else ""
     case _ => "")
  }

  /** The segment without "solo": the pair (or "Multiple characters"), with the
      solo-focus suffix where it applies; "! Conflict" when several pairs match;
      "Unknown" when none does. */
  function PairSegment(flat: seq<string>): (string, seq<string>) {
    match CheckForInteractionTag(flat)
    case Conflict(names) => ("! Conflict", names)
    case Match(s) =>
      if PhpEmpty(s) then ("Unknown", [])
      else if DS !in s && "solo_focus" in flat then (s + SoloFocus(flat), [])
      else (s, [])
    case NoMatch => ("Unknown", [])
  }

  /** The interaction segment of a post's flattened tags. */
  function InteractionSegmentOf(flat: seq<string>): (string, seq<string>) {
    if "solo" in flat then SoloSegment(flat) else PairSegment(flat)
  }

  /** The interaction segment; "Unknown" when the tags could not be fetched. */
  function InteractionSegment(tags: Option<seq<Category>>): (string, seq<string>) {
    if tags.None? then ("Unknown", []) else InteractionSegmentOf(TagsAsOneArray(tags.value))
  }

  // ---------------------------------------------------------------------------
  // categorize

  /** The steps of categorize() in order: existence, the gates, the rating, the
      interaction. `found` is what getPostExists answered, `tags` and `rating`
      what getPostTags and getPostRating answered (None for false). */
  function Categorize(cfg: Config, found: bool, tags: Option<seq<Category>>, rating: Option<string>): Classification {
    if !found then Classification("! Not found", [])
    else if Rejected(cfg, tags) then Classification("! Invalid", [])
    else if cfg.byRating && RatingFolder(rating).None? then Classification("! Unknown rating", [])
    else
      var base := if cfg.byRating then RatingFolder(rating).value else "";
      if !cfg.byInteraction then Classification(base, [])
      else
        var seg := InteractionSegment(tags);
        Classification(if !PhpEmpty(base) then base + [DS] + seg.0 else seg.0, seg.1)
  }

  // ---------------------------------------------------------------------------
  // Properties

  /** A post that is not confirmed is "! Not found", whatever else holds. */
  lemma NotFoundFirst(cfg: Config, tags: Option<seq<Category>>, rating: Option<string>)
    ensures Categorize(cfg, false, tags, rating) == Classification("! Not found", [])
  {
  }

  /** An existing post is "! Invalid" exactly when the gates reject it. */
  lemma InvalidIffRejected(cfg: Config, tags: Option<seq<Category>>, rating: Option<string>)
    ensures Categorize(cfg, true, tags, rating).path == "! Invalid" <==> Rejected(cfg, tags)
  {
    if !Rejected(cfg, tags) && !(cfg.byRating && RatingFolder(rating).None?) {
      if cfg.byRating {
        RatedPathInitial(cfg, tags, rating);
      } else if cfg.byInteraction {
        SegmentInitials(tags);
        if InteractionConflict(tags) {
          ConflictSegment(tags);
        }
      }
    }
  }

  /** The gates are independent: the post passes exactly when it has every
      REQUIRE_ALL_TAGS term (if set) and some REQUIRE_ONE_TAG term (if set). */
  lemma GatesIndependent(cfg: Config, cats: seq<Category>)
    requires GatesConfigured(cfg)
    ensures !Rejected(cfg, Some(cats)) <==>
              (!PhpEmpty(cfg.requireAllTags) ==> forall t :: t in Split(cfg.requireAllTags, ' ') ==> t in TagsAsOneArray(cats))
              && (!PhpEmpty(cfg.requireOneTag) ==> exists t :: t in Split(cfg.requireOneTag, ' ') && t in TagsAsOneArray(cats))
  {
  }

  /** When the tags cannot be fetched the gates do not apply: the outcome is the
      one without any required tags. */
  lemma TagsUnavailableSkipGates(cfg: Config, found: bool, rating: Option<string>)
    ensures Categorize(cfg, found, None, rating)
         == Categorize(cfg.(requireAllTags := "", requireOneTag := ""), found, None, rating)
  {
  }

  /** Only e, q and s give a rating folder, and each gives its own. */
  lemma RatingFolders(rating: Option<string>)
    ensures RatingFolder(rating) == Some("Explicit") <==> rating == Some("e")
    ensures RatingFolder(rating) == Some("Questionable") <==> rating == Some("q")
    ensures RatingFolder(rating) == Some("Safe") <==> rating == Some("s")
    ensures RatingFolder(rating).None? <==> rating !in {Some("e"), Some("q"), Some("s")}
  {
  }

  /** With rating folders on and an accepted post, the path is the rating folder,
      followed by the interaction segment when interactions are on. */
  lemma RatingComesFirst(cfg: Config, tags: Option<seq<Category>>, rating: Option<string>)
    requires cfg.byRating && !Rejected(cfg, tags) && RatingFolder(rating).Some?
    ensures !cfg.byInteraction ==> Categorize(cfg, true, tags, rating).path == RatingFolder(rating).value
    ensures cfg.byInteraction ==>
              Categorize(cfg, true, tags, rating).path == RatingFolder(rating).value + [DS] + InteractionSegment(tags).0
  {
  }

  /** The rating folders start with a capital letter. */
  lemma RatingFolderUpper(rating: Option<string>)
    requires RatingFolder(rating).Some?
    ensures UpperInitial(RatingFolder(rating).value)
  {
  }

  /** Under a rating folder, the path starts with the folder's first letter. */
  lemma RatedPathInitial(cfg: Config, tags: Option<seq<Category>>, rating: Option<string>)
    requires cfg.byRating && !Rejected(cfg, tags) && RatingFolder(rating).Some?
    ensures var path := Categorize(cfg, true, tags, rating).path;
            path != [] && path[0] == RatingFolder(rating).value[0] && !Flagged(path)
  {
    RatingFolderUpper(rating);
    var base := RatingFolder(rating).value;
    if cfg.byInteraction {
      assert (base + [DS] + InteractionSegment(tags).0)[0] == base[0];
    }
  }

  /** An unusable rating stops categorisation when rating folders are on. */
  lemma UnknownRating(cfg: Config, tags: Option<seq<Category>>, rating: Option<string>)
    requires cfg.byRating && !Rejected(cfg, tags)
    ensures Categorize(cfg, true, tags, rating).path == "! Unknown rating" <==> RatingFolder(rating).None?
  {
    if RatingFolder(rating).Some? {
      RatedPathInitial(cfg, tags, rating);
    }
  }

  lemma SegmentInitials(tags: Option<seq<Category>>)
    ensures InteractionSegment(tags).0 != []
    ensures Flagged(InteractionSegment(tags).0) <==> InteractionConflict(tags)
  {
    if tags.Some? {
      var flat := TagsAsOneArray(tags.value);
      if "solo" !in flat {
        InteractionUpper(flat);
        match CheckForInteractionTag(flat)
        case Conflict(_) =>
        case Match(s) =>
          if !PhpEmpty(s) && DS !in s && "solo_focus" in flat {
            assert (s + SoloFocus(flat))[0] == s[0];
          }
        case NoMatch =>
      }
    }
  }

  /** Several interaction pairs and no "solo": the conflict case. */
  predicate InteractionConflict(tags: Option<seq<Category>>) {
    tags.Some? && "solo" !in TagsAsOneArray(tags.value) && CheckForInteractionTag(TagsAsOneArray(tags.value)).Conflict?
  }

  /** The conflict segment. */
  lemma ConflictSegment(tags: Option<seq<Category>>)
    requires InteractionConflict(tags)
    ensures InteractionSegment(tags).0 == "! Conflict"
  {
    SegmentNotes(TagsAsOneArray(tags.value));
  }

  /** The segment carries notes exactly for a conflict, and they are the
      conflicting names. */
  lemma SegmentNotes(flat: seq<string>)
    ensures "solo" in flat ==>
              (InteractionSegmentOf(flat).1 != [] <==> CheckForGenderTag(flat).Conflict?)
    ensures "solo" !in flat ==>
              (CheckForInteractionTag(flat).Conflict? <==> InteractionSegmentOf(flat).0 == "! Conflict")
    ensures InteractionSegmentOf(flat).1 != [] ==>
              if "solo" in flat then CheckForGenderTag(flat) == Conflict(InteractionSegmentOf(flat).1)
              else CheckForInteractionTag(flat) == Conflict(InteractionSegmentOf(flat).1)
  {
    if "solo" in flat {
      SoloNotes(flat);
    } else {
      PairNotes(flat);
    }
  }

  lemma SoloNotes(flat: seq<string>)
    ensures SoloSegment(flat).1 != [] <==> CheckForGenderTag(flat).Conflict?
    ensures SoloSegment(flat).1 != [] ==> CheckForGenderTag(flat) == Conflict(SoloSegment(flat).1)
  {
    match CheckForGenderTag(flat)
    case Conflict(names) => assert |names| > 1;
    case Match(_) =>
    case NoMatch =>
  }

  lemma PairNotes(flat: seq<string>)
    ensures CheckForInteractionTag(flat).Conflict? <==> PairSegment(flat).0 == "! Conflict"
    ensures PairSegment(flat).1 != [] ==> CheckForInteractionTag(flat) == Conflict(PairSegment(flat).1)
  {
    InteractionUpper(flat);
    var r := CheckForInteractionTag(flat);
    if r.Conflict? {
      assert |r.names| > 1;
    } else if r.Match? && !PhpEmpty(r.name) && DS !in r.name && "solo_focus" in flat {
      assert (r.name + SoloFocus(flat))[0] == r.name[0];
    }
  }

  /** Which outcomes start with "!" (and so stay in the source directory): not
      found, rejected, unknown rating, and an interaction conflict only when no
      rating folder is in front of it. */
  lemma CategorizeFlagged(cfg: Config, found: bool, tags: Option<seq<Category>>, rating: Option<string>)
    ensures Flagged(Categorize(cfg, found, tags, rating).path) <==>
              || !found
              || Rejected(cfg, tags)
              || (cfg.byRating && RatingFolder(rating).None?)
              || (!cfg.byRating && cfg.byInteraction && InteractionConflict(tags))
  {
    if found && !Rejected(cfg, tags) && !(cfg.byRating && RatingFolder(rating).None?) {
      if cfg.byRating {
        RatedPathInitial(cfg, tags, rating);
      } else if cfg.byInteraction {
        SegmentInitials(tags);
      }
    }
  }

  /** A conflict under a rating folder, such as "Explicit/! Conflict", does not
      start with "!", so it is filed under the target directory. */
  lemma RatedConflictNotFlagged(cfg: Config, tags: Option<seq<Category>>, rating: Option<string>)
    requires cfg.byRating && cfg.byInteraction && !Rejected(cfg, tags) && RatingFolder(rating).Some?
    requires InteractionConflict(tags)
    ensures Categorize(cfg, true, tags, rating).path == RatingFolder(rating).value + [DS] + "! Conflict"
    ensures !Flagged(Categorize(cfg, true, tags, rating).path)
  {
    var base := RatingFolder(rating).value;
    ConflictSegment(tags);
    RatingComesFirst(cfg, tags, rating);
    RatingFolderUpper(rating);
    assert (base + [DS] + "! Conflict")[0] == base[0];
  }

  /** A conflict keeps the conflicting names as debug notes; every other outcome
      has none. */
  lemma NotesOnlyOnConflict(cfg: Config, found: bool, tags: Option<seq<Category>>, rating: Option<string>)
    requires Categorize(cfg, found, tags, rating).notes != []
    ensures found && cfg.byInteraction && tags.Some?
    ensures var flat := TagsAsOneArray(tags.value);
            if "solo" in flat then CheckForGenderTag(flat) == Conflict(Categorize(cfg, found, tags, rating).notes)
            else CheckForInteractionTag(flat) == Conflict(Categorize(cfg, found, tags, rating).notes)
  {
    if tags.Some? {
      SegmentNotes(TagsAsOneArray(tags.value));
    }
  }

  /** The outcome depends on the tags only through which tags occur how often,
      not on categories or their order. */
  lemma CategorizeOrderFree(cfg: Config, found: bool, a: seq<Category>, b: seq<Category>, rating: Option<string>)
    requires multiset(Concat(a)) == multiset(Concat(b))
    ensures Categorize(cfg, found, Some(a), rating) == Categorize(cfg, found, Some(b), rating)
  {
    TagsAsOneArrayOrderFree(a, b);
  }

  /** Nothing downstream of the sort depends on the order it produces: any
      list holding the post's tags, in any order, passes the same gates and
      gets the same interaction segment as the sorted list. */
  lemma SortOrderIrrelevant(cfg: Config, cats: seq<Category>, flat: seq<string>)
    requires multiset(flat) == multiset(Concat(cats))
    ensures PassesGates(cfg, flat) == PassesGates(cfg, TagsAsOneArray(cats))
    ensures InteractionSegmentOf(flat) == InteractionSegmentOf(TagsAsOneArray(cats))
  {
    var sorted := TagsAsOneArray(cats);
    forall t
      ensures t in flat <==> t in sorted
    {
      assert t in flat <==> t in multiset(flat);
      assert t in sorted <==> t in multiset(sorted);
    }
    SameMembersSameGates(cfg, flat, sorted);
    SameMembersSameSegment(flat, sorted);
  }

  lemma SameMembersSameGates(cfg: Config, a: seq<string>, b: seq<string>)
    requires forall t :: t in a <==> t in b
    ensures PassesGates(cfg, a) == PassesGates(cfg, b)
  {
    assert HasAll(cfg.requireAllTags, a) == HasAll(cfg.requireAllTags, b);
    assert HasOne(cfg.requireOneTag, a) == HasOne(cfg.requireOneTag, b);
  }

  lemma SameMembersSameSegment(a: seq<string>, b: seq<string>)
    requires forall t :: t in a <==> t in b
    ensures InteractionSegmentOf(a) == InteractionSegmentOf(b)
  {
    SameMembersSameLookups(a, b);
    SameLookupsSameSolo(a, b);
    SameLookupsSamePair(a, b);
    assert ("solo" in a) == ("solo" in b);
  }

  lemma SameLookupsSameSolo(a: seq<string>, b: seq<string>)
    requires CheckForGenderTag(a) == CheckForGenderTag(b)
    ensures SoloSegment(a) == SoloSegment(b) && SoloFocus(a) == SoloFocus(b)
  {
  }

  lemma SameLookupsSamePair(a: seq<string>, b: seq<string>)
    requires CheckForGenderTag(a) == CheckForGenderTag(b) && CheckForInteractionTag(a) == CheckForInteractionTag(b)
    requires ("solo_focus" in a) == ("solo_focus" in b)
    ensures PairSegment(a) == PairSegment(b)
  {
    SameLookupsSameSolo(a, b);
  }

  /** "solo" with exactly one gender: "Solo/<Gender>". */
  lemma SoloWithGender(flat: seq<string>, i: nat)
    requires "solo" in flat
    requires i < |GenderTerms| && GenderTerms[i].tag in flat
    requires forall k :: 0 <= k < |GenderTerms| && k != i ==> GenderTerms[k].tag !in flat
    ensures SoloSegment(flat) == ("Solo" + [DS] + Capitalize(GenderTerms[i].name), [])
  {
    GenderSingle(flat, i);
    GenderUpper(flat);
  }

  /** "solo_focus" is appended to any interaction without a separator, a bare
      "Multiple characters" included. */
  lemma SoloFocusOnGroup(flat: seq<string>)
    requires "solo" !in flat && "group" in flat && "solo_focus" in flat
    requires |FoundPairs(flat)| != 1
    ensures PairSegment(flat) == ("Multiple characters" + SoloFocus(flat), [])
  {
    MultipleCharactersUnseparated();
  }

  lemma MultipleCharactersUnseparated()
    ensures DS !in "Multiple characters"
  {
  }

  // ---------------------------------------------------------------------------
  // Worked examples

  /** The distinct tags of a post, over all its categories. */
  function TagSet(cats: seq<Category>): set<string> {
    set t | t in Concat(cats)
  }

  lemma InTagSet(cats: seq<Category>, t: string)
    ensures t in TagsAsOneArray(cats) <==> t in TagSet(cats)
  {
    assert t in TagsAsOneArray(cats) <==> t in multiset(TagsAsOneArray(cats));
  }

  /** Rating "s" with interactions off: "Safe". */
  lemma SafeOnly(tags: Option<seq<Category>>)
    ensures Categorize(Config("", "", true, false), true, tags, Some("s")).path == "Safe"
  {
  }

  /** Rating "e", interactions on, a post tagged "solo" and "male" (in whatever
      categories): "Explicit/Solo/Male". */
  lemma ExplicitSoloMale(cats: seq<Category>)
    requires TagSet(cats) == {"solo", "male"}
    ensures Categorize(Config("", "", true, true), true, Some(cats), Some("e")).path == "Explicit/Solo/Male"
  {
    SoloMaleSegment(cats);
    ExplicitInteraction(cats);
  }

  /** With rating "e" and interaction folders on, the path is "Explicit/" and the
      interaction segment. */
  lemma ExplicitInteraction(cats: seq<Category>)
    ensures Categorize(Config("", "", true, true), true, Some(cats), Some("e")).path
         == "Explicit" + [DS] + InteractionSegment(Some(cats)).0
  {
  }

  lemma SoloMaleSegment(cats: seq<Category>)
    requires TagSet(cats) == {"solo", "male"}
    ensures InteractionSegment(Some(cats)).0 == "Solo/Male"
  {
    var flat := TagsAsOneArray(cats);
    forall t ensures t in flat <==> t in {"solo", "male"} {
      InTagSet(cats, t);
    }
    SoloMale(flat);
  }

  lemma SoloMale(flat: seq<string>)
    requires forall t :: t in flat <==> t in {"solo", "male"}
    ensures InteractionSegmentOf(flat).0 == "Solo/Male"
  {
    SoloWithGender(flat, 0);
    GenderDisplayNames();
  }

  /** The pair segment of tags holding "group" but no pair tag, "solo" or
      "solo_focus". */
  lemma GroupWithoutPairs(flat: seq<string>)
    requires "group" in flat && "solo" !in flat && "solo_focus" !in flat
    requires forall t :: t in flat ==> DS !in t
    ensures InteractionSegmentOf(flat) == ("Multiple characters", [])
  {
    UnslashedTagsNoPairs(flat);
  }

  /** The segment of tags holding no pair tag, "group" or "solo". */
  lemma NoPairs(flat: seq<string>)
    requires "group" !in flat && "solo" !in flat
    requires forall t :: t in flat ==> DS !in t
    ensures InteractionSegmentOf(flat) == ("Unknown", [])
  {
    UnslashedTagsNoPairs(flat);
  }

  /** With only interaction folders on, the path is the interaction segment. */
  lemma InteractionOnly(cats: seq<Category>)
    ensures Categorize(Config("", "", false, true), true, Some(cats), None).path == InteractionSegment(Some(cats)).0
  {
  }

  /** Interactions on, a post tagged "male", "female" and "group":
      "Multiple characters". */
  lemma GroupOfTwo(cats: seq<Category>)
    requires TagSet(cats) == {"male", "female", "group"}
    ensures Categorize(Config("", "", false, true), true, Some(cats), None).path == "Multiple characters"
  {
    GroupOfTwoSegment(cats);
    InteractionOnly(cats);
  }

  lemma GroupOfTwoSegment(cats: seq<Category>)
    requires TagSet(cats) == {"male", "female", "group"}
    ensures InteractionSegment(Some(cats)).0 == "Multiple characters"
  {
    forall t ensures t in TagsAsOneArray(cats) <==> t in {"male", "female", "group"} {
      InTagSet(cats, t);
    }
    GroupWithoutPairs(TagsAsOneArray(cats));
  }

  /** Interactions on, a post tagged "male" and "female" without "group": no pair
      tag, so "Unknown". The pair is only recognised from the "male/female" tag. */
  lemma TwoGendersNoPair(cats: seq<Category>)
    requires TagSet(cats) == {"male", "female"}
    ensures Categorize(Config("", "", false, true), true, Some(cats), None).path == "Unknown"
  {
    TwoGendersSegment(cats);
    InteractionOnly(cats);
  }

  lemma TwoGendersSegment(cats: seq<Category>)
    requires TagSet(cats) == {"male", "female"}
    ensures InteractionSegment(Some(cats)).0 == "Unknown"
  {
    forall t ensures t in TagsAsOneArray(cats) <==> t in {"male", "female"} {
      InTagSet(cats, t);
    }
    NoPairs(TagsAsOneArray(cats));
  }

  /** Interactions on, a post tagged "male/female": "Male & Female". */
  lemma MaleFemalePair(cats: seq<Category>)
    requires TagSet(cats) == {"male/female"}
    ensures Categorize(Config("", "", false, true), true, Some(cats), None).path == "Male & Female"
  {
    MaleFemaleSegment(cats);
    InteractionOnly(cats);
  }

  lemma MaleFemaleSegment(cats: seq<Category>)
    requires TagSet(cats) == {"male/female"}
    ensures InteractionSegment(Some(cats)).0 == "Male & Female"
  {
    var flat := TagsAsOneArray(cats);
    SingleTag(cats, "male/female");
    assert "solo" !in flat && "solo_focus" !in flat;
    MaleFemaleFound(flat);
    PairOnly(flat);
  }

  lemma SingleTag(cats: seq<Category>, x: string)
    requires TagSet(cats) == {x}
    ensures forall t :: t in TagsAsOneArray(cats) <==> t == x
  {
    forall t ensures t in TagsAsOneArray(cats) <==> t == x {
      InTagSet(cats, t);
    }
  }

  /** Without "solo" and "solo_focus", a matched interaction is the segment. */
  lemma PairOnly(flat: seq<string>)
    requires "solo" !in flat && "solo_focus" !in flat
    requires CheckForInteractionTag(flat).Match? && !PhpEmpty(CheckForInteractionTag(flat).name)
    ensures InteractionSegmentOf(flat) == (CheckForInteractionTag(flat).name, [])
  {
  }

  lemma MaleFemaleFound(flat: seq<string>)
    requires forall t :: t in flat <==> t == "male/female"
    ensures CheckForInteractionTag(flat) == Match("Male & Female")
  {
    MaleFemaleEntry();
    SinglePairTag(flat, 1);
  }

  /** Entry 1 of the pair table is "male/female", named "Male & Female". */
  lemma MaleFemaleEntry()
    ensures Pairs()[1].tag == "male/female" && Pairs()[1].name == "Male & Female"
  {
    var a, b := PairTerms[0], PairTerms[1];
    assert a == Term("male", "male") && b == Term("female", "female");
    assert 1 / 7 == 0 && 1 % 7 == 1;
    assert Pairs()[1] == MakePair(1);
    assert MakePair(1) == Pair(a.tag + "/" + b.tag,
                               Capitalize(a.name) + " & " + Capitalize(b.name),
                               Capitalize(b.name) + " & " + Capitalize(a.name));
    GenderDisplayNames();
  }

  lemma GenderDisplayNames()
    ensures Capitalize("male") == "Male" && Capitalize("female") == "Female"
  {
    assert "male"[1..] == "ale" && "female"[1..] == "emale";
  }
}
