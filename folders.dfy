/** Path rewriting after categorisation: the alternative folder names for the
    rating folders (checkForAlternativeFolderNames) and the retargeting of a
    move whose destination already exists (safeRename). The file system is
    given as data: the set of paths that are directories, the ordered listing
    of the destination root, and the set of paths that exist. */
module Folders {
  import opened Strings

  // ---------------------------------------------------------------------------
  // checkForAlternativeFolderNames

  /** The alternative name of a rating folder. */
  function Alias(first: string): Option<string> {
    if first == "Explicit" then Some("Adult")
    else if first == "Questionable" then Some("Mature")
    else if first == "Safe" then Some("Clean")
    else None
  }

  /** A listing entry the fallback may take: not "." or "..", a directory under
      the root, and its name contains the alias or the original name. */
  predicate Candidate(root: string, dirs: set<string>, entry: string, alias: string, original: string) {
    && entry != "." && entry != ".."
    && root + [DS] + entry in dirs
    && (Contains(entry, alias) || Contains(entry, original))
  }

  /** The first candidate of the listing, in listing order. */
  function FirstCandidate(root: string, dirs: set<string>, listing: seq<string>, alias: string, original: string): Option<string> {
    if listing == [] then None
    else if Candidate(root, dirs, listing[0], alias, original) then Some(listing[0])
    else FirstCandidate(root, dirs, listing[1..], alias, original)
  }

  /** The first segment replaced by `x`, the rest of the path kept. */
  function ReplaceFirst(sub: string, x: string): string {
    Join([x] + Split(sub, DS)[1..], DS)
  }

  /** checkForAlternativeFolderNames: when the first segment is a rating folder,
      use its alias if that directory exists under the root, else the first
      listed directory whose name contains the alias or the rating name; in every
      other case the path is returned as it is. */
  function AlternativeFolderName(sub: string, root: string, dirs: set<string>, listing: seq<string>): string {
    var first := Split(sub, DS)[0];
    match Alias(first)
    case None => sub
    case Some(alias) =>
      if root + [DS] + alias in dirs then ReplaceFirst(sub, alias)
      else
        match FirstCandidate(root, dirs, listing, alias, first)
        case Some(entry) => ReplaceFirst(sub, entry)
        case None => sub
  }

  // Properties

  /** The first candidate is a candidate, is listed, and no entry before it is a
      candidate; without one, no listed entry is. */
  lemma {:induction false} FirstCandidateIsFirst(root: string, dirs: set<string>, listing: seq<string>, alias: string, original: string)
    ensures match FirstCandidate(root, dirs, listing, alias, original)
            case Some(entry) =>
              exists i :: 0 <= i < |listing| && listing[i] == entry
                && Candidate(root, dirs, entry, alias, original)
                && forall j :: 0 <= j < i ==> !Candidate(root, dirs, listing[j], alias, original)
            case None =>
              forall j :: 0 <= j < |listing| ==> !Candidate(root, dirs, listing[j], alias, original)
    decreases |listing|
  {
    if listing != [] && !Candidate(root, dirs, listing[0], alias, original) {
      var tail := listing[1..];
      FirstCandidateIsFirst(root, dirs, tail, alias, original);
      match FirstCandidate(root, dirs, tail, alias, original)
      case Some(entry) =>
        var i :| 0 <= i < |tail| && tail[i] == entry
                 && Candidate(root, dirs, entry, alias, original)
                 && forall j :: 0 <= j < i ==> !Candidate(root, dirs, tail[j], alias, original);
        assert listing[i + 1] == entry;
        forall j | 0 <= j < i + 1 ensures !Candidate(root, dirs, listing[j], alias, original) {
          if j > 0 {
            assert listing[j] == tail[j - 1];
          }
        }
      case None =>
        forall j | 0 <= j < |listing| ensures !Candidate(root, dirs, listing[j], alias, original) {
          if j > 0 {
            assert listing[j] == tail[j - 1];
          }
        }
    }
  }

  /** Replacing the first segment keeps the text after it, and with a
      separator-free replacement every later segment. */
  lemma ReplaceFirstKeepsRest(sub: string, x: string)
    ensures ReplaceFirst(sub, x) == x + sub[|Split(sub, DS)[0]|..]
    ensures DS !in x ==> Split(ReplaceFirst(sub, x), DS) == [x] + Split(sub, DS)[1..]
  {
    JoinReplaceFirst(sub, DS, x);
    if DS !in x {
      var parts := [x] + Split(sub, DS)[1..];
      forall k | 0 <= k < |parts| ensures DS !in parts[k] {
        if k > 0 {
          assert parts[k] == Split(sub, DS)[k];
        }
      }
      SplitJoin(parts, DS);
    }
  }

  /** Paths that do not start with a rating folder are left alone. */
  lemma NonRatingUnchanged(sub: string, root: string, dirs: set<string>, listing: seq<string>)
    requires Split(sub, DS)[0] !in {"Explicit", "Questionable", "Safe"}
    ensures AlternativeFolderName(sub, root, dirs, listing) == sub
  {
  }

  /** An existing alias directory always wins: "Explicit/Solo/Male" becomes
      "Adult/Solo/Male" when the root holds "Adult". */
  lemma AliasDirectoryPreferred(sub: string, root: string, dirs: set<string>, listing: seq<string>)
    requires Alias(Split(sub, DS)[0]).Some?
    requires root + [DS] + Alias(Split(sub, DS)[0]).value in dirs
    ensures AlternativeFolderName(sub, root, dirs, listing)
         == Alias(Split(sub, DS)[0]).value + sub[|Split(sub, DS)[0]|..]
  {
    ReplaceFirstKeepsRest(sub, Alias(Split(sub, DS)[0]).value);
  }

  /** Without the alias directory, the first listed directory containing either
      name is used, whichever of the two it contains; the rest of the path is
      kept. With no such entry, the path is unchanged. */
  lemma FallbackToListing(sub: string, root: string, dirs: set<string>, listing: seq<string>)
    requires Alias(Split(sub, DS)[0]).Some?
    requires root + [DS] + Alias(Split(sub, DS)[0]).value !in dirs
    ensures var first := Split(sub, DS)[0];
            var alias := Alias(first).value;
            var r := AlternativeFolderName(sub, root, dirs, listing);
            || (r == sub && forall j :: 0 <= j < |listing| ==> !Candidate(root, dirs, listing[j], alias, first))
            || (exists i :: 0 <= i < |listing|
                  && Candidate(root, dirs, listing[i], alias, first)
                  && (forall j :: 0 <= j < i ==> !Candidate(root, dirs, listing[j], alias, first))
                  && r == listing[i] + sub[|first|..])
  {
    var first := Split(sub, DS)[0];
    var alias := Alias(first).value;
    FirstCandidateIsFirst(root, dirs, listing, alias, first);
    match FirstCandidate(root, dirs, listing, alias, first)
    case Some(entry) => ReplaceFirstKeepsRest(sub, entry);
    case None =>
  }

  /** Only the first segment can change; every later segment is kept. */
  lemma OnlyFirstSegmentChanges(sub: string, root: string, dirs: set<string>, listing: seq<string>)
    requires forall e :: e in listing ==> DS !in e
    ensures Split(AlternativeFolderName(sub, root, dirs, listing), DS)[1..] == Split(sub, DS)[1..]
  {
    var first := Split(sub, DS)[0];
    match Alias(first)
    case None =>
    case Some(alias) =>
      assert DS !in "Adult" && DS !in "Mature" && DS !in "Clean";
      if root + [DS] + alias in dirs {
        ReplaceFirstKeepsRest(sub, alias);
      } else {
        FirstCandidateIsFirst(root, dirs, listing, alias, first);
        match FirstCandidate(root, dirs, listing, alias, first)
        case Some(entry) => ReplaceFirstKeepsRest(sub, entry);
        case None =>
      }
  }

  // ---------------------------------------------------------------------------
  // safeRename

  /** The next destination tried when `to` exists: under the source directory,
      in "! Exists", with every "<source>/" and then every "<target>/" removed
      from the old destination. */
  function ExistsPath(to: string, source: string, target: string): string {
    source + [DS] + "! Exists" + [DS] + RemoveAll(RemoveAll(to, source + [DS]), target + [DS])
  }

  /** The destination after n retargets. */
  function Retargeted(to: string, source: string, target: string, n: nat): string
    decreases n
  {
    if n == 0 then to else Retargeted(ExistsPath(to, source, target), source, target, n - 1)
  }

  /** The destination safeRename finally moves to: the first path of the retarget
      chain that does not exist. `existing` holds paths as the file system reads
      them, so a destination is looked up with its separator runs collapsed,
      while the retarget rewrites its literal text. `visited` holds the paths of
      the chain tried so far; None when the chain comes back to one of them,
      where the source would recurse without end. */
  function FinalDestination(to: string, existing: set<string>, source: string, target: string, visited: set<string>): Option<string>
    decreases existing - visited
  {
    var onDisk := CollapseSeparators(to);
    if onDisk !in existing then Some(to)
    else if onDisk in visited then None
    else FinalDestination(ExistsPath(to, source, target), existing, source, target, visited + {onDisk})
  }

  /** A free destination is used as it is. */
  lemma FreeDestinationKept(to: string, existing: set<string>, source: string, target: string)
    requires CollapseSeparators(to) !in existing
    ensures FinalDestination(to, existing, source, target, {}) == Some(to)
  {
  }

  /** `p` is reached after n retargets and every path before it exists. */
  ghost predicate ReachedAfter(to: string, existing: set<string>, source: string, target: string, n: nat, p: string) {
    Retargeted(to, source, target, n) == p
    && forall m: nat :: m < n ==> CollapseSeparators(Retargeted(to, source, target, m)) in existing
  }

  /** The final destination is the first path of the retarget chain that does
      not exist: it is free, and every earlier path in the chain exists. */
  lemma {:induction false} FinalDestinationFirstFree(to: string, existing: set<string>, source: string, target: string, visited: set<string>)
    requires FinalDestination(to, existing, source, target, visited).Some?
    ensures CollapseSeparators(FinalDestination(to, existing, source, target, visited).value) !in existing
    ensures exists n: nat :: ReachedAfter(to, existing, source, target, n, FinalDestination(to, existing, source, target, visited).value)
    decreases existing - visited
  {
    var p := FinalDestination(to, existing, source, target, visited).value;
    if CollapseSeparators(to) !in existing {
      assert ReachedAfter(to, existing, source, target, 0, p);
    } else {
      var next := ExistsPath(to, source, target);
      assert FinalDestination(to, existing, source, target, visited)
          == FinalDestination(next, existing, source, target, visited + {CollapseSeparators(to)});
      FinalDestinationFirstFree(next, existing, source, target, visited + {CollapseSeparators(to)});
      var n: nat :| ReachedAfter(next, existing, source, target, n, p);
      forall m: nat | m < n + 1 ensures CollapseSeparators(Retargeted(to, source, target, m)) in existing {
        if m > 0 {
          assert Retargeted(to, source, target, m) == Retargeted(next, source, target, m - 1);
        }
      }
      assert ReachedAfter(to, existing, source, target, n + 1, p);
    }
  }

  /** A doubled separator before a name without separators reads as one. */
  lemma DoubledSeparatorName(name: string)
    requires name != [] && DS !in name
    ensures CollapseSeparators([DS, DS] + name) == [DS] + name
  {
    NoSeparatorUnchanged(name);
    var once := [DS] + name;
    assert once[1] == name[0] && name[0] in name;
    assert once[1..] == name;
    assert CollapseSeparators(once) == [DS] + name;
    assert ([DS, DS] + name)[1..] == once;
  }

  /** With an empty folder, "<root>/<sub>/<name>" is "<root>//<name>", which is
      "<root>/<name>" on disk. */
  lemma EmptyFolderOnDisk(root: string, sub: string, name: string)
    requires root != [] && root[|root| - 1] != DS
    requires NoSeparatorRun(root)
    requires sub == [] && name != [] && DS !in name
    ensures CollapseSeparators(root + [DS] + sub + [DS] + name) == root + [DS] + name
  {
    var doubled, single := [DS, DS] + name, [DS] + name;
    EmptyFolderShape(root, sub, name);
    DoubledSeparatorName(name);
    CollapseAppend(root, doubled);
  }

  /** The empty-folder path, regrouped. */
  lemma EmptyFolderShape(root: string, sub: string, name: string)
    requires sub == []
    ensures root + [DS] + sub + [DS] + name == root + ([DS, DS] + name)
    ensures root + ([DS] + name) == root + [DS] + name
  {
  }

  /** An empty folder gives the destination "<root>//<name>", which is
      "<root>/<name>" on disk. When that file exists (the file itself, when
      source and target are one directory), safeRename does not settle on it. */
  lemma EmptyFolderSameFile(root: string, sub: string, name: string, existing: set<string>, source: string, target: string)
    requires root != [] && root[|root| - 1] != DS
    requires NoSeparatorRun(root)
    requires sub == [] && name != [] && DS !in name
    requires root + [DS] + name in existing
    ensures FinalDestination(root + [DS] + sub + [DS] + name, existing, source, target, {}) != Some(root + [DS] + sub + [DS] + name)
  {
    var to := root + [DS] + sub + [DS] + name;
    EmptyFolderOnDisk(root, sub, name);
    if FinalDestination(to, existing, source, target, {}).Some? {
      FinalDestinationFirstFree(to, existing, source, target, {});
    }
  }

  /** Every retarget lands in "<source>/! Exists/". */
  lemma RetargetUnderExists(to: string, existing: set<string>, source: string, target: string)
    requires CollapseSeparators(to) in existing
    requires FinalDestination(to, existing, source, target, {}).Some?
    ensures StartsWith(FinalDestination(to, existing, source, target, {}).value, source + [DS] + "! Exists" + [DS])
  {
    var next := ExistsPath(to, source, target);
    var prefix := source + [DS] + "! Exists" + [DS];
    assert next[..|prefix|] == prefix;
    assert {} + {CollapseSeparators(to)} == {CollapseSeparators(to)};
    RetargetStaysUnderExists(next, existing, source, target, {CollapseSeparators(to)});
  }

  lemma {:induction false} RetargetStaysUnderExists(to: string, existing: set<string>, source: string, target: string, visited: set<string>)
    requires StartsWith(to, source + [DS] + "! Exists" + [DS])
    requires FinalDestination(to, existing, source, target, visited).Some?
    ensures StartsWith(FinalDestination(to, existing, source, target, visited).value, source + [DS] + "! Exists" + [DS])
    decreases existing - visited
  {
    if CollapseSeparators(to) in existing && CollapseSeparators(to) !in visited {
      var next := ExistsPath(to, source, target);
      var prefix := source + [DS] + "! Exists" + [DS];
      assert next[..|prefix|] == prefix;
      RetargetStaysUnderExists(next, existing, source, target, visited + {CollapseSeparators(to)});
    }
  }
}
