/** The tag helpers of the classifier: flattening a post's categorised tags
    (getTagsAsOneArray), the gender lookup (checkForGenderTag) and the
    interaction-pair lookup (checkForInteractionTag). */
module Tags {
  import opened Strings

  /** One tag category of a post ("general", "species", ...) with its tags, in
      the order the catalog lists them. */
  datatype Category = Category(name: string, tags: seq<string>)

  /** The tags of all categories, category after category. */
  function Concat(cats: seq<Category>): seq<string> {
    if cats == [] then [] else cats[0].tags + Concat(cats[1..])
  }

  /** How many tags the categories hold together, repeats counted. */
  function TotalCount(cats: seq<Category>): nat {
    if cats == [] then 0 else |cats[0].tags| + TotalCount(cats[1..])
  }

  /** getTagsAsOneArray: every tag of every category, sorted (by code point,
      see Strings.LessEq). The source's duplicate check compares the whole
      category array (not the tag) with the collected strings, which never
      holds, so every tag is kept. */
  function TagsAsOneArray(cats: seq<Category>): (r: seq<string>)
    ensures Sorted(r)
    ensures multiset(r) == multiset(Concat(cats))
  {
    Sort(Concat(cats))
  }

  lemma {:induction false} ConcatLength(cats: seq<Category>)
    ensures |Concat(cats)| == TotalCount(cats)
    decreases |cats|
  {
    if cats != [] {
      ConcatLength(cats[1..]);
    }
  }

  /** Nothing is dropped: the flattened list is as long as all categories together,
      so a tag listed in two categories appears twice. */
  lemma TagsAsOneArrayLength(cats: seq<Category>)
    ensures |TagsAsOneArray(cats)| == TotalCount(cats)
  {
    ConcatLength(cats);
  }

  lemma {:induction false} InConcat(cats: seq<Category>, t: string)
    ensures t in Concat(cats) <==> exists k :: 0 <= k < |cats| && t in cats[k].tags
    decreases |cats|
  {
    if cats != [] {
      InConcat(cats[1..], t);
      if t in Concat(cats[1..]) {
        var k :| 0 <= k < |cats[1..]| && t in cats[1..][k].tags;
        assert t in cats[k + 1].tags;
      }
      if exists k :: 0 <= k < |cats| && t in cats[k].tags {
        var k :| 0 <= k < |cats| && t in cats[k].tags;
        if k > 0 {
          assert t in cats[1..][k - 1].tags;
        }
      }
    }
  }

  /** A tag is in the flattened list exactly when some category lists it. */
  lemma InTagsAsOneArray(cats: seq<Category>, t: string)
    ensures t in TagsAsOneArray(cats) <==> exists k :: 0 <= k < |cats| && t in cats[k].tags
  {
    InConcat(cats, t);
    assert t in TagsAsOneArray(cats) <==> t in multiset(TagsAsOneArray(cats));
  }

  /** The flattened list depends only on which tags occur how often, not on the
      order of categories or of tags within them. */
  lemma TagsAsOneArrayOrderFree(a: seq<Category>, b: seq<Category>)
    requires multiset(Concat(a)) == multiset(Concat(b))
    ensures TagsAsOneArray(a) == TagsAsOneArray(b)
  {
    SortOrderIndependent(Concat(a), Concat(b));
  }

  /** A duplicate survives: the same tag under two categories is listed twice. */
  lemma DuplicatesKept()
    ensures TagsAsOneArray([Category("general", ["male"]), Category("species", ["male"])]) == ["male", "male"]
  {
    var cats := [Category("general", ["male"]), Category("species", ["male"])];
    assert Concat(cats[1..]) == ["male"];
    assert Concat(cats) == ["male", "male"];
    assert Sort(["male"]) == ["male"];
    LessEqReflexive("male");
    assert Sort(["male", "male"]) == Insert("male", ["male"]);
  }

  // ---------------------------------------------------------------------------
  // Vocabulary lookups

  /** A vocabulary entry: the tag looked for and the lower-case name it stands for. */
  datatype Term = Term(tag: string, name: string)

  /** What a lookup returns: nothing (the source's ''), one name (a string) or
      several names (an array, which the caller treats as a conflict). */
  datatype Lookup = NoMatch | Match(name: string) | Conflict(names: seq<string>)

  /** Capitalised names of the terms whose tag is present, in vocabulary order. */
  function Matches(terms: seq<Term>, tags: seq<string>): seq<string> {
    if terms == [] then []
    else (if terms[0].tag in tags then [Capitalize(terms[0].name)] else []) + Matches(terms[1..], tags)
  }

  /** One match is returned as it is, several as a list, none as ''. */
  function Verdict(found: seq<string>): Lookup {
    if |found| == 1 then Match(found[0])
    else if |found| > 1 then Conflict(found)
    else NoMatch
  }

  lemma {:induction false} MatchesNone(terms: seq<Term>, tags: seq<string>)
    ensures Matches(terms, tags) == [] <==> forall k :: 0 <= k < |terms| ==> terms[k].tag !in tags
    decreases |terms|
  {
    if terms != [] {
      MatchesNone(terms[1..], tags);
      if forall k :: 0 <= k < |terms[1..]| ==> terms[1..][k].tag !in tags {
        assert forall k :: 1 <= k < |terms| ==> terms[k].tag !in tags by {
          forall k | 1 <= k < |terms| ensures terms[k].tag !in tags {
            assert terms[1..][k - 1] == terms[k];
          }
        }
      }
    }
  }

  lemma {:induction false} MatchesOnly(terms: seq<Term>, tags: seq<string>, i: nat)
    requires i < |terms| && terms[i].tag in tags
    requires forall k :: 0 <= k < |terms| && k != i ==> terms[k].tag !in tags
    ensures Matches(terms, tags) == [Capitalize(terms[i].name)]
    decreases |terms|
  {
    if i == 0 {
      MatchesNone(terms[1..], tags);
    } else {
      MatchesOnly(terms[1..], tags, i - 1);
    }
  }

  lemma {:induction false} MatchesMember(terms: seq<Term>, tags: seq<string>, i: nat)
    requires i < |terms| && terms[i].tag in tags
    ensures exists p :: 0 <= p < |Matches(terms, tags)| && Matches(terms, tags)[p] == Capitalize(terms[i].name)
    decreases |terms|
  {
    var m := Matches(terms, tags);
    var head := if terms[0].tag in tags then [Capitalize(terms[0].name)] else [];
    if i == 0 {
      assert m[0] == Capitalize(terms[0].name);
    } else {
      MatchesMember(terms[1..], tags, i - 1);
      var p :| 0 <= p < |Matches(terms[1..], tags)| && Matches(terms[1..], tags)[p] == Capitalize(terms[i].name);
      assert m[|head| + p] == Capitalize(terms[i].name);
    }
  }

  /** Two present terms are both reported, the earlier one first. */
  lemma {:induction false} MatchesOrdered(terms: seq<Term>, tags: seq<string>, i: nat, j: nat)
    requires i < j < |terms|
    requires terms[i].tag in tags && terms[j].tag in tags
    ensures exists p, q :: 0 <= p < q < |Matches(terms, tags)|
              && Matches(terms, tags)[p] == Capitalize(terms[i].name)
              && Matches(terms, tags)[q] == Capitalize(terms[j].name)
    decreases |terms|
  {
    var m := Matches(terms, tags);
    if i == 0 {
      MatchesMember(terms[1..], tags, j - 1);
      var q :| 0 <= q < |Matches(terms[1..], tags)| && Matches(terms[1..], tags)[q] == Capitalize(terms[j].name);
      assert m[0] == Capitalize(terms[0].name);
      assert m[1 + q] == Capitalize(terms[j].name);
    } else {
      MatchesOrdered(terms[1..], tags, i - 1, j - 1);
      var head := if terms[0].tag in tags then [Capitalize(terms[0].name)] else [];
      var p, q :| 0 <= p < q < |Matches(terms[1..], tags)|
              && Matches(terms[1..], tags)[p] == Capitalize(terms[i].name)
              && Matches(terms[1..], tags)[q] == Capitalize(terms[j].name);
      assert m[|head| + p] == Capitalize(terms[i].name);
      assert m[|head| + q] == Capitalize(terms[j].name);
    }
  }

  // ---------------------------------------------------------------------------
  // checkForGenderTag

  /** The gender vocabulary in the source's order; three tags map to other names. */
  const GenderTerms: seq<Term> := [
    Term("male", "male"),
    Term("female", "female"),
    Term("andromorph", "cuntboy"),
    Term("gynomorph", "dickgirl"),
    Term("herm", "herm"),
    Term("maleherm", "maleherm"),
    Term("ambiguous_gender", "ambiguous")
  ]

  function CheckForGenderTag(tags: seq<string>): Lookup {
    Verdict(Matches(GenderTerms, tags))
  }

  /** The folder names the seven gender tags give. */
  lemma GenderNames()
    ensures |GenderTerms| == 7
    ensures Capitalize(GenderTerms[0].name) == "Male"
    ensures Capitalize(GenderTerms[1].name) == "Female"
    ensures Capitalize(GenderTerms[2].name) == "Cuntboy"
    ensures Capitalize(GenderTerms[3].name) == "Dickgirl"
    ensures Capitalize(GenderTerms[4].name) == "Herm"
    ensures Capitalize(GenderTerms[5].name) == "Maleherm"
    ensures Capitalize(GenderTerms[6].name) == "Ambiguous"
  {
  }

  /** No gender tag present exactly when the lookup finds nothing. */
  lemma GenderNone(tags: seq<string>)
    ensures CheckForGenderTag(tags) == NoMatch <==> forall k :: 0 <= k < |GenderTerms| ==> GenderTerms[k].tag !in tags
  {
    MatchesNone(GenderTerms, tags);
  }

  /** Exactly one gender tag present: its capitalised folder name. */
  lemma GenderSingle(tags: seq<string>, i: nat)
    requires i < |GenderTerms| && GenderTerms[i].tag in tags
    requires forall k :: 0 <= k < |GenderTerms| && k != i ==> GenderTerms[k].tag !in tags
    ensures CheckForGenderTag(tags) == Match(Capitalize(GenderTerms[i].name))
  {
    MatchesOnly(GenderTerms, tags, i);
  }

  /** Two gender tags present: a conflict listing both, in vocabulary order. */
  lemma GenderSeveral(tags: seq<string>, i: nat, j: nat)
    requires i < j < |GenderTerms|
    requires GenderTerms[i].tag in tags && GenderTerms[j].tag in tags
    ensures CheckForGenderTag(tags).Conflict?
    ensures exists p, q :: 0 <= p < q < |CheckForGenderTag(tags).names|
              && CheckForGenderTag(tags).names[p] == Capitalize(GenderTerms[i].name)
              && CheckForGenderTag(tags).names[q] == Capitalize(GenderTerms[j].name)
  {
    MatchesOrdered(GenderTerms, tags, i, j);
  }

  lemma {:induction false} MatchesUpper(terms: seq<Term>, tags: seq<string>)
    requires forall k :: 0 <= k < |terms| ==> terms[k].name != [] && IsLower(terms[k].name[0])
    ensures forall x :: x in Matches(terms, tags) ==> UpperInitial(x)
    decreases |terms|
  {
    if terms != [] {
      MatchesUpper(terms[1..], tags);
    }
  }

  /** Every gender folder name starts with a capital letter (so never with "!"). */
  lemma GenderUpper(tags: seq<string>)
    ensures CheckForGenderTag(tags).Match? ==> UpperInitial(CheckForGenderTag(tags).name)
    ensures CheckForGenderTag(tags).Conflict? ==>
              forall x :: x in CheckForGenderTag(tags).names ==> UpperInitial(x)
  {
    assert forall k :: 0 <= k < |GenderTerms| ==> GenderTerms[k].name != [] && IsLower(GenderTerms[k].name[0]);
    MatchesUpper(GenderTerms, tags);
  }

  // ---------------------------------------------------------------------------
  // checkForInteractionTag

  /** An entry of the source's pair table: the interaction tag ("male/female"),
      its folder name ("Male & Female") and that name with the halves swapped
      ("Female & Male"), which the source derives by splitting at " & ". */
  datatype Pair = Pair(tag: string, name: string, inverted: string)

  /** Walks the pair table from index k on, appending the (capitalised) name of
      each pair whose tag is present unless its inverted name is already in the
      list. */
  function CollectPairs(pairs: seq<Pair>, tags: seq<string>, k: nat, found: seq<string>): seq<string>
    requires k <= |pairs|
    decreases |pairs| - k
  {
    if k == |pairs| then found
    else
      var found' := if pairs[k].tag in tags && pairs[k].inverted !in found
                    then found + [Capitalize(pairs[k].name)] else found;
      CollectPairs(pairs, tags, k + 1, found')
  }

  // Reference definition of what the walk records, without the running list.
  // mirror[k] is the index of the pair with the two halves swapped.

  /** The facts about a pair table the reference definition relies on: mirroring
      is an involution, a name equals k's inverted name exactly for k's mirror,
      and names are already capitalised. */
  ghost predicate MirrorTable(pairs: seq<Pair>, mirror: seq<nat>) {
    && |mirror| == |pairs|
    && (forall k :: 0 <= k < |pairs| ==> mirror[k] < |pairs| && mirror[mirror[k]] == k)
    && (forall q, k :: 0 <= q < |pairs| && 0 <= k < |pairs| ==>
          (pairs[q].name == pairs[k].inverted <==> q == mirror[k]))
    && (forall k :: 0 <= k < |pairs| ==> Capitalize(pairs[k].name) == pairs[k].name)
  }

  /** Pair k is recorded when its tag is present, unless its mirror comes earlier
      and is present too. */
  predicate RecordedAt(pairs: seq<Pair>, mirror: seq<nat>, tags: seq<string>, k: nat)
    requires |mirror| == |pairs| && k < |pairs|
    requires forall i :: 0 <= i < |pairs| ==> mirror[i] < |pairs|
  {
    pairs[k].tag in tags && (k <= mirror[k] || pairs[mirror[k]].tag !in tags)
  }

  /** The names of the recorded pairs among the first k, in table order. */
  function RecordedUpTo(pairs: seq<Pair>, mirror: seq<nat>, tags: seq<string>, k: nat): seq<string>
    requires |mirror| == |pairs| && k <= |pairs|
    requires forall i :: 0 <= i < |pairs| ==> mirror[i] < |pairs|
  {
    if k == 0 then []
    else RecordedUpTo(pairs, mirror, tags, k - 1)
         + (if RecordedAt(pairs, mirror, tags, k - 1) then [pairs[k - 1].name] else [])
  }

  lemma {:induction false} InRecordedUpTo(pairs: seq<Pair>, mirror: seq<nat>, tags: seq<string>, k: nat, s: string)
    requires |mirror| == |pairs| && k <= |pairs|
    requires forall i :: 0 <= i < |pairs| ==> mirror[i] < |pairs|
    ensures s in RecordedUpTo(pairs, mirror, tags, k) <==>
              exists q :: 0 <= q < k && RecordedAt(pairs, mirror, tags, q) && pairs[q].name == s
    decreases k
  {
    if k > 0 {
      InRecordedUpTo(pairs, mirror, tags, k - 1, s);
    }
  }

  /** Pair k's inverted name is among the names recorded before it exactly when
      k's mirror comes earlier and its tag is present. */
  lemma InvertedRecorded(pairs: seq<Pair>, mirror: seq<nat>, tags: seq<string>, k: nat)
    requires MirrorTable(pairs, mirror) && k < |pairs|
    ensures pairs[k].inverted in RecordedUpTo(pairs, mirror, tags, k)
        <==> mirror[k] < k && pairs[mirror[k]].tag in tags
  {
    InRecordedUpTo(pairs, mirror, tags, k, pairs[k].inverted);
    if pairs[k].inverted in RecordedUpTo(pairs, mirror, tags, k) {
      var q :| 0 <= q < k && RecordedAt(pairs, mirror, tags, q) && pairs[q].name == pairs[k].inverted;
      assert q == mirror[k];
    }
    if mirror[k] < k && pairs[mirror[k]].tag in tags {
      assert RecordedAt(pairs, mirror, tags, mirror[k]);
    }
  }

  lemma {:induction false} CollectPairsFrom(pairs: seq<Pair>, mirror: seq<nat>, tags: seq<string>, k: nat)
    requires MirrorTable(pairs, mirror) && k <= |pairs|
    ensures CollectPairs(pairs, tags, k, RecordedUpTo(pairs, mirror, tags, k))
         == RecordedUpTo(pairs, mirror, tags, |pairs|)
    decreases |pairs| - k
  {
    if k < |pairs| {
      var found := RecordedUpTo(pairs, mirror, tags, k);
      InvertedRecorded(pairs, mirror, tags, k);
      assert Capitalize(pairs[k].name) == pairs[k].name;
      assert RecordedUpTo(pairs, mirror, tags, k + 1)
          == found + (if RecordedAt(pairs, mirror, tags, k) then [pairs[k].name] else []);
      var found' := if pairs[k].tag in tags && pairs[k].inverted !in found
                    then found + [Capitalize(pairs[k].name)] else found;
      assert found' == RecordedUpTo(pairs, mirror, tags, k + 1);
      assert CollectPairs(pairs, tags, k, found) == CollectPairs(pairs, tags, k + 1, found');
      CollectPairsFrom(pairs, mirror, tags, k + 1);
    }
  }

  /** Of two mirrored pairs whose tags are both present, only the earlier one is
      recorded. */
  lemma MirroredRecordedOnce(pairs: seq<Pair>, mirror: seq<nat>, tags: seq<string>, k: nat)
    requires MirrorTable(pairs, mirror) && k < |pairs| && k < mirror[k]
    requires pairs[k].tag in tags && pairs[mirror[k]].tag in tags
    ensures pairs[k].name in RecordedUpTo(pairs, mirror, tags, |pairs|)
    ensures pairs[mirror[k]].name !in RecordedUpTo(pairs, mirror, tags, |pairs|)
  {
    var m := mirror[k];
    assert RecordedAt(pairs, mirror, tags, k);
    assert !RecordedAt(pairs, mirror, tags, m);
    InRecordedUpTo(pairs, mirror, tags, |pairs|, pairs[k].name);
    InRecordedUpTo(pairs, mirror, tags, |pairs|, pairs[m].name);
    forall q | 0 <= q < |pairs| && pairs[q].name == pairs[m].name
      ensures q == m
    {
      assert pairs[m].name == pairs[k].inverted;
    }
  }

  /** With capitalised names in the table, every recorded name starts with a
      capital letter. */
  lemma {:induction false} CollectPairsUpper(pairs: seq<Pair>, tags: seq<string>, k: nat, found: seq<string>)
    requires k <= |pairs|
    requires forall j :: 0 <= j < |pairs| ==> UpperInitial(pairs[j].name)
    requires forall x :: x in found ==> UpperInitial(x)
    ensures forall x :: x in CollectPairs(pairs, tags, k, found) ==> UpperInitial(x)
    decreases |pairs| - k
  {
    if k < |pairs| {
      assert Capitalize(pairs[k].name) == pairs[k].name;
      var found' := if pairs[k].tag in tags && pairs[k].inverted !in found
                    then found + [Capitalize(pairs[k].name)] else found;
      CollectPairsUpper(pairs, tags, k + 1, found');
    }
  }

  /** No tag of the table present: nothing is recorded. */
  lemma {:induction false} CollectPairsNone(pairs: seq<Pair>, tags: seq<string>, k: nat, found: seq<string>)
    requires k <= |pairs|
    requires forall j :: 0 <= j < |pairs| ==> pairs[j].tag !in tags
    ensures CollectPairs(pairs, tags, k, found) == found
    decreases |pairs| - k
  {
    if k < |pairs| {
      CollectPairsNone(pairs, tags, k + 1, found);
    }
  }

  /** Only pair k's tag present: exactly its name is recorded. */
  lemma {:induction false} RecordedOnly(pairs: seq<Pair>, mirror: seq<nat>, tags: seq<string>, k: nat, n: nat)
    requires MirrorTable(pairs, mirror) && k < |pairs| && n <= |pairs|
    requires pairs[k].tag in tags
    requires forall j :: 0 <= j < |pairs| && j != k ==> pairs[j].tag !in tags
    ensures RecordedUpTo(pairs, mirror, tags, n) == if k < n then [pairs[k].name] else []
    decreases n
  {
    if n > 0 {
      RecordedOnly(pairs, mirror, tags, k, n - 1);
      if n - 1 == k {
        assert RecordedAt(pairs, mirror, tags, k);
      }
    }
  }

  /** The source's walk records exactly the reference pairs. */
  lemma CollectPairsRecorded(pairs: seq<Pair>, mirror: seq<nat>, tags: seq<string>)
    requires MirrorTable(pairs, mirror)
    ensures CollectPairs(pairs, tags, 0, []) == RecordedUpTo(pairs, mirror, tags, |pairs|)
  {
    CollectPairsFrom(pairs, mirror, tags, 0);
  }

  // The table of the source.

  /** The interaction vocabulary: gynomorph comes before andromorph here, and the
      ambiguous tag is plain "ambiguous". */
  const PairTerms: seq<Term> := [
    Term("male", "male"),
    Term("female", "female"),
    Term("gynomorph", "dickgirl"),
    Term("andromorph", "cuntboy"),
    Term("herm", "herm"),
    Term("maleherm", "maleherm"),
    Term("ambiguous", "ambiguous")
  ]

  /** The source builds 49 pairs, first gender in the outer loop: entry k pairs
      gender k / 7 with gender k % 7. */
  const PairCount: nat := 49

  function MakePair(k: nat): Pair
    requires k < PairCount
  {
    var a, b := PairTerms[k / 7], PairTerms[k % 7];
    Pair(a.tag + "/" + b.tag,
         Capitalize(a.name) + " & " + Capitalize(b.name),
         Capitalize(b.name) + " & " + Capitalize(a.name))
  }

  function Pairs(): seq<Pair> {
    seq(PairCount, k requires 0 <= k < PairCount => MakePair(k))
  }

  function Mirrors(): seq<nat> {
    seq(PairCount, k requires 0 <= k < PairCount => 7 * (k % 7) + k / 7)
  }

  function FoundPairs(tags: seq<string>): seq<string> {
    CollectPairs(Pairs(), tags, 0, [])
  }

  function CheckForInteractionTag(tags: seq<string>): Lookup {
    var group := "group" in tags;
    var found := FoundPairs(tags);
    if !group && |found| == 1 then Match(found[0])
    else if group then
      (if |found| == 1 then Match("Multiple characters" + [DS] + found[0]) else Match("Multiple characters"))
    else if |found| > 1 then Conflict(found)
    else NoMatch
  }

  /** The interaction vocabulary's names: non-empty, lower-case initial, free of
      spaces, and pairwise different. */
  lemma PairTermsNames()
    ensures forall i :: 0 <= i < |PairTerms| ==>
              PairTerms[i].name != [] && IsLower(PairTerms[i].name[0]) && ' ' !in PairTerms[i].name
    ensures forall i, j :: 0 <= i < j < |PairTerms| ==> PairTerms[i].name != PairTerms[j].name
  {
  }

  lemma DisplayName(i: nat)
    requires i < 7
    ensures Capitalize(PairTerms[i].name) != [] && ' ' !in Capitalize(PairTerms[i].name)
  {
    PairTermsNames();
    CapitalizeKeepsOut(PairTerms[i].name, ' ');
  }

  lemma DisplayNameInjective(i: nat, j: nat)
    requires i < 7 && j < 7 && Capitalize(PairTerms[i].name) == Capitalize(PairTerms[j].name)
    ensures i == j
  {
    PairTermsNames();
    CapitalizeInjective(PairTerms[i].name, PairTerms[j].name);
  }

  /** "A & B" determines A and B among the seven display names. */
  lemma DisplayPairInjective(a: nat, b: nat, c: nat, d: nat)
    requires a < 7 && b < 7 && c < 7 && d < 7
    requires Capitalize(PairTerms[a].name) + " & " + Capitalize(PairTerms[b].name)
          == Capitalize(PairTerms[c].name) + " & " + Capitalize(PairTerms[d].name)
    ensures a == c && b == d
  {
    DisplayName(a);
    DisplayName(c);
    JoinInjective(Capitalize(PairTerms[a].name), Capitalize(PairTerms[b].name),
                  Capitalize(PairTerms[c].name), Capitalize(PairTerms[d].name), " & ");
    DisplayNameInjective(a, c);
    DisplayNameInjective(b, d);
  }

  /** Entry q of the table is entry k with first and second gender swapped. */
  lemma MirrorIndex(q: nat, k: nat)
    requires q < PairCount && k < PairCount
    ensures q == Mirrors()[k] <==> q / 7 == k % 7 && q % 7 == k / 7
  {
  }

  /** Mirroring entry 7i+j gives entry 7j+i. */
  lemma MirrorOf(i: nat, j: nat)
    requires i < 7 && j < 7
    ensures Mirrors()[7 * i + j] == 7 * j + i
  {
  }

  /** Mirroring stays inside the table and undoes itself. */
  lemma MirrorInvolution(k: nat)
    requires k < PairCount
    ensures Mirrors()[k] < PairCount && Mirrors()[Mirrors()[k]] == k
  {
    MirrorOf(k / 7, k % 7);
    MirrorOf(k % 7, k / 7);
  }

  /** A name in the table equals entry k's inverted name exactly for k's mirror. */
  lemma NameOfMirror(q: nat, k: nat)
    requires q < PairCount && k < PairCount
    ensures Pairs()[q].name == Pairs()[k].inverted <==> q == Mirrors()[k]
  {
    var qa, qb, ka, kb := q / 7, q % 7, k / 7, k % 7;
    assert Pairs()[q] == MakePair(q) && Pairs()[k] == MakePair(k);
    assert Pairs()[q].name == Capitalize(PairTerms[qa].name) + " & " + Capitalize(PairTerms[qb].name);
    assert Pairs()[k].inverted == Capitalize(PairTerms[kb].name) + " & " + Capitalize(PairTerms[ka].name);
    MirrorIndex(q, k);
    if Pairs()[q].name == Pairs()[k].inverted {
      DisplayPairInjective(qa, qb, kb, ka);
    }
  }

  /** The source's table has the mirror structure the reference relies on. */
  lemma PairsMirrorTable()
    ensures MirrorTable(Pairs(), Mirrors())
  {
    forall q, k | 0 <= q < PairCount && 0 <= k < PairCount
      ensures Pairs()[q].name == Pairs()[k].inverted <==> q == Mirrors()[k]
    {
      NameOfMirror(q, k);
    }
    forall k | 0 <= k < PairCount
      ensures Mirrors()[k] < PairCount && Mirrors()[Mirrors()[k]] == k
    {
      MirrorInvolution(k);
    }
    forall k | 0 <= k < PairCount
      ensures Capitalize(Pairs()[k].name) == Pairs()[k].name
    {
      DisplayName(k / 7);
      assert Pairs()[k] == MakePair(k);
      assert Pairs()[k].name == Capitalize(PairTerms[k / 7].name) + (" & " + Capitalize(PairTerms[k % 7].name));
      CapitalizeCapitalized(PairTerms[k / 7].name, " & " + Capitalize(PairTerms[k % 7].name));
    }
  }

  /** What the source records, in reference terms. */
  lemma FoundPairsRecorded(tags: seq<string>)
    ensures FoundPairs(tags) == RecordedUpTo(Pairs(), Mirrors(), tags, PairCount)
  {
    PairsMirrorTable();
    CollectPairsRecorded(Pairs(), Mirrors(), tags);
  }

  /** The interaction vocabulary's tags: free of "/" and pairwise different. */
  lemma PairTermsTags()
    ensures forall i :: 0 <= i < |PairTerms| ==> '/' !in PairTerms[i].tag
    ensures forall i, j :: 0 <= i < j < |PairTerms| ==> PairTerms[i].tag != PairTerms[j].tag
  {
  }

  /** Every interaction tag of the table holds a "/". */
  lemma PairTagSlashed(k: nat)
    requires k < PairCount
    ensures '/' in Pairs()[k].tag
  {
    assert Pairs()[k] == MakePair(k);
    var a := PairTerms[k / 7].tag;
    assert Pairs()[k].tag[|a|] == '/';
  }

  /** Entry k's tag is "a/b" for the k / 7-th and k % 7-th vocabulary tags, and
      no other entry has that tag. */
  lemma PairTagUnique(k: nat, q: nat)
    requires k < PairCount && q < PairCount && Pairs()[q].tag == Pairs()[k].tag
    ensures q == k
  {
    var qa, qb, ka, kb := q / 7, q % 7, k / 7, k % 7;
    assert Pairs()[k] == MakePair(k) && Pairs()[q] == MakePair(q);
    assert Pairs()[q].tag == PairTerms[qa].tag + "/" + PairTerms[qb].tag;
    assert Pairs()[k].tag == PairTerms[ka].tag + "/" + PairTerms[kb].tag;
    PairTermsTags();
    JoinInjective(PairTerms[qa].tag, PairTerms[qb].tag, PairTerms[ka].tag, PairTerms[kb].tag, "/");
    assert qa == ka && qb == kb;
    assert q == 7 * qa + qb && k == 7 * ka + kb;
  }

  /** Every name in the table starts with a capital letter. */
  lemma PairsUpper()
    ensures forall j :: 0 <= j < PairCount ==> UpperInitial(Pairs()[j].name)
  {
    forall j | 0 <= j < PairCount ensures UpperInitial(Pairs()[j].name) {
      assert Pairs()[j] == MakePair(j);
      PairTermsNames();
      var first := Capitalize(PairTerms[j / 7].name);
      assert UpperInitial(first);
      assert Pairs()[j].name[0] == first[0];
    }
  }

  lemma FoundPairsUpper(tags: seq<string>)
    ensures forall x :: x in FoundPairs(tags) ==> UpperInitial(x)
  {
    PairsUpper();
    CollectPairsUpper(Pairs(), tags, 0, []);
  }

  /** Whatever the interaction lookup names starts with a capital letter. */
  lemma InteractionUpper(tags: seq<string>)
    ensures CheckForInteractionTag(tags).Match? ==> UpperInitial(CheckForInteractionTag(tags).name)
    ensures CheckForInteractionTag(tags).Conflict? ==>
              forall x :: x in CheckForInteractionTag(tags).names ==> UpperInitial(x)
  {
    FoundPairsUpper(tags);
    var found := FoundPairs(tags);
    if "group" in tags {
      var name := if |found| == 1 then "Multiple characters" + [DS] + found[0] else "Multiple characters";
      assert name[0] == 'M';
      assert CheckForInteractionTag(tags) == Match(name);
    } else if |found| == 1 {
      assert found[0] in found;
      assert CheckForInteractionTag(tags) == Match(found[0]);
    } else if |found| > 1 {
      assert CheckForInteractionTag(tags) == Conflict(found);
    } else {
      assert CheckForInteractionTag(tags) == NoMatch;
    }
  }

  /** Tags without "/" never name an interaction: gender tags alone
      ("male", "female") match no pair. */
  lemma UnslashedTagsNoPairs(tags: seq<string>)
    requires forall t :: t in tags ==> '/' !in t
    ensures FoundPairs(tags) == []
  {
    forall j | 0 <= j < PairCount ensures Pairs()[j].tag !in tags {
      PairTagSlashed(j);
    }
    CollectPairsNone(Pairs(), tags, 0, []);
  }

  /** Exactly one interaction tag of the table present: its name. */
  lemma SinglePairTag(tags: seq<string>, k: nat)
    requires k < PairCount && Pairs()[k].tag in tags
    requires forall t :: t in tags && '/' in t ==> t == Pairs()[k].tag
    ensures FoundPairs(tags) == [Pairs()[k].name]
  {
    forall j | 0 <= j < PairCount && j != k ensures Pairs()[j].tag !in tags {
      if Pairs()[j].tag in tags {
        PairTagSlashed(j);
        PairTagUnique(k, j);
      }
    }
    PairsMirrorTable();
    RecordedOnly(Pairs(), Mirrors(), tags, k, PairCount);
    FoundPairsRecorded(tags);
  }

  /** Both "a/b" and "b/a" present: only the one earlier in generation order
      (first gender earlier in the vocabulary) is recorded, so the pair is
      counted once. */
  lemma MirroredPairCountedOnce(tags: seq<string>, i: nat, j: nat)
    requires i < j < 7
    requires Pairs()[7 * i + j].tag in tags && Pairs()[7 * j + i].tag in tags
    ensures Pairs()[7 * i + j].name in FoundPairs(tags)
    ensures Pairs()[7 * j + i].name !in FoundPairs(tags)
  {
    var k, m := 7 * i + j, 7 * j + i;
    assert k < m < PairCount by {
      assert 7 * i + j < 7 * j + i <= 7 * 6 + 6;
    }
    MirrorOf(i, j);
    assert |Pairs()| == PairCount;
    PairsMirrorTable();
    MirroredRecordedOnce(Pairs(), Mirrors(), tags, k);
    FoundPairsRecorded(tags);
  }

  /** Whatever pairs match, the "group" tag makes the segment "Multiple
      characters", followed by the pair only when exactly one pair matched. */
  lemma GroupGivesMultipleCharacters(tags: seq<string>)
    requires "group" in tags
    ensures CheckForInteractionTag(tags)
         == Match(if |FoundPairs(tags)| == 1 then "Multiple characters" + [DS] + FoundPairs(tags)[0] else "Multiple characters")
  {
  }

  /** The vocabulary walk reads membership only: two lists holding the same
      tags, whatever their order or repeats, give the same matches. */
  lemma {:induction false} MatchesMembers(terms: seq<Term>, a: seq<string>, b: seq<string>)
    requires forall t :: t in a <==> t in b
    ensures Matches(terms, a) == Matches(terms, b)
    decreases |terms|
  {
    if terms != [] {
      MatchesMembers(terms[1..], a, b);
    }
  }

  /** The pair walk reads membership only as well. */
  lemma {:induction false} CollectPairsMembers(pairs: seq<Pair>, a: seq<string>, b: seq<string>, k: nat, found: seq<string>)
    requires k <= |pairs|
    requires forall t :: t in a <==> t in b
    ensures CollectPairs(pairs, a, k, found) == CollectPairs(pairs, b, k, found)
    decreases |pairs| - k
  {
    if k < |pairs| {
      var found' := if pairs[k].tag in a && pairs[k].inverted !in found then found + [Capitalize(pairs[k].name)] else found;
      CollectPairsMembers(pairs, a, b, k + 1, found');
    }
  }

  /** checkForGenderTag and checkForInteractionTag give the same answer for
      any two lists holding the same tags. */
  lemma SameMembersSameLookups(a: seq<string>, b: seq<string>)
    requires forall t :: t in a <==> t in b
    ensures CheckForGenderTag(a) == CheckForGenderTag(b)
    ensures CheckForInteractionTag(a) == CheckForInteractionTag(b)
  {
    MatchesMembers(GenderTerms, a, b);
    CollectPairsMembers(Pairs(), a, b, 0, []);
    assert FoundPairs(a) == FoundPairs(b);
    assert ("group" in a) == ("group" in b);
  }
}
