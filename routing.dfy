/** Per-file routing decisions: what the reverse image search yields, how its
    candidates are filtered and de-duplicated, which outcome a file gets, which
    root it is moved under, whether an image is uploaded as it is or re-encoded,
    and how the command line and the CONVERT setting are read. */
module Routing {
  import opened Strings
  import opened Classifier

  /** What getPostIdByMd5 returns: an id, the empty-array sentinel, or false. */
  datatype IdLookup = Id(id: int) | Sentinel | Missing

  /** PHP truthiness of a hash lookup: only a non-zero id counts. */
  predicate Truthy(r: IdLookup) {
    r.Id? && r.id != 0
  }

  // ---------------------------------------------------------------------------
  // The CONVERT setting and the raw-or-convert decision

  /** CONVERT after coercion: a boolean switch or a byte threshold. */
  datatype ConvertSetting = Switch(on: bool) | Threshold(bytes: int)

  /** A configuration value: the built-in boolean default or text from a .cfg file. */
  datatype ConfigValue = Flag(b: bool) | Text(s: string)

  /** An integer numeric string: an optional sign and at least one digit. */
  predicate IsNumeric(s: string) {
    if s != [] && (s[0] == '-' || s[0] == '+') then s[1..] != [] && AllDigits(s[1..])
    else s != [] && AllDigits(s)
  }

  /** `(int)` of an integer numeric string. */
  function IntOf(s: string): int
    requires IsNumeric(s)
  {
    if s[0] == '-' then -(DigitsValue(s[1..]) as int)
    else if s[0] == '+' then DigitsValue(s[1..])
    else DigitsValue(s)
  }

  /** A numeric CONVERT becomes a threshold, anything else a boolean. */
  function CoerceConvert(v: ConfigValue): ConvertSetting {
    match v
    case Flag(b) => Switch(b)
    case Text(s) => if IsNumeric(s) then Threshold(IntOf(s)) else Switch(!PhpEmpty(s))
  }

  /** convertImage's first test: the raw bytes are sent when conversion is
      switched off, or when the threshold is above the file size. */
  predicate SendsRaw(c: ConvertSetting, size: int) {
    (c.Switch? && !c.on) || (c.Threshold? && c.bytes > size)
  }

  /** What convertImage hands to the upload. */
  datatype Upload = Raw | Jpeg | Unconvertible

  /** convertImage: raw bytes, a quality-90 JPEG re-encoding of a PNG, JPEG or
      GIF that decodes, or nothing. */
  function ConvertImage(c: ConvertSetting, size: int, mime: string, decodes: bool): (u: Upload) {
    if SendsRaw(c, size) then Raw
    else if (mime == "image/png" || mime == "image/jpeg" || mime == "image/gif") && decodes then Jpeg
    else Unconvertible
  }

  // ---------------------------------------------------------------------------
  // Reverse image search

  /** One candidate of an IQDB answer: its post id if set, whether it embeds a
      post listing, and that listing's file URL ("" when missing). */
  datatype Candidate = Candidate(postId: Option<int>, listed: bool, fileUrl: string)

  /** The reply to one IQDB request: a body (None when it is not an array), a
      429, or another failure. */
  datatype IqdbReply = Body(entries: Option<seq<Candidate>>) | TooManyRequests | Broken

  /** A candidate is skipped when there are several and it embeds a listing
      without a file URL. */
  predicate Skipped(entries: seq<Candidate>, c: Candidate) {
    |entries| > 1 && c.listed && PhpEmpty(c.fileUrl)
  }

  /** The ids of the kept candidates, in order. */
  function Kept(entries: seq<Candidate>, from: seq<Candidate>): seq<int>
    decreases |from|
  {
    if from == [] then []
    else (if !Skipped(entries, from[0]) && from[0].postId.Some? then [from[0].postId.value] else [])
         + Kept(entries, from[1..])
  }

  /** The filtering loop over an IQDB answer. */
  method CollectMatches(entries: seq<Candidate>) returns (ids: seq<int>)
    ensures ids == Kept(entries, entries)
  {
    ids := [];
    var i := 0;
    while i < |entries|
      invariant 0 <= i <= |entries|
      invariant ids + Kept(entries, entries[i..]) == Kept(entries, entries)
    {
      assert entries[i..][1..] == entries[i + 1..];
      var c := entries[i];
      if !(|entries| > 1 && c.listed && PhpEmpty(c.fileUrl)) && c.postId.Some? {
        ids := ids + [c.postId.value];
      }
      i := i + 1;
    }
    assert entries[i..] == [];
  }

  /** An array body: the kept ids when the first entry has a post id, else []. */
  function SearchResult(entries: Option<seq<Candidate>>): Option<seq<int>> {
    match entries
    case None => None
    case Some(es) => if |es| > 0 && es[0].postId.Some? then Some(Kept(es, es)) else Some([])
  }

  /** reverseSearch: false (None) when the image cannot be converted, when the
      body is not an array, or on a failure; a 429 is retried once. */
  function ReverseSearch(upload: Upload, first: IqdbReply, retry: IqdbReply): Option<seq<int>> {
    if upload == Unconvertible then None
    else match first
      case Body(entries) => SearchResult(entries)
      case TooManyRequests =>
        (match retry
         case Body(entries) => SearchResult(entries)
         case _ => None)
      case Broken => None
  }

  /** array_unique on a list: the first occurrence of each id, in order. */
  function Dedup(ids: seq<int>): (r: seq<int>)
    decreases |ids|
  {
    if ids == [] then []
    else
      var d := Dedup(ids[..|ids| - 1]);
      if ids[|ids| - 1] in d then d else d + [ids[|ids| - 1]]
  }

  /** The note written next to a file several posts matched. */
  function MatchNotes(ids: seq<int>): seq<string> {
    ["Multiple posts matched: "] + seq(|ids|, i requires 0 <= i < |ids| => "https://e621.net/posts/" + DecimalString(ids[i]))
  }

  // ---------------------------------------------------------------------------
  // The outcome of one file

  /** Either a post to categorize (found by hash, or as the single reverse-search
      match), or a folder already decided. */
  datatype Step = Classify(id: int, byReverse: bool) | Settled(path: string, notes: seq<string>)

  function Resolve(lookup: IdLookup, reverseSearch: bool, reverse: Option<seq<int>>): Step {
    if Truthy(lookup) then Classify(lookup.id, false)
    else if !reverseSearch then Settled("", [])
    else match reverse
      case None => Settled("! Error", [])
      case Some(ids) =>
        if ids == [] then Settled("", [])
        else
          var unique := Dedup(ids);
          if |unique| == 1 then Classify(unique[0], true)
          else Settled("! Multiple matches", MatchNotes(unique))
  }

  /** Without a hash match, an empty folder becomes "! Not found" when the file
      is still there. */
  function NotFoundFallback(c: Classification, fileExists: bool): Classification {
    if PhpEmpty(c.path) && fileExists then Classification("! Not found", c.notes) else c
  }

  /** The folder and notes of one file; `classified` is what categorize gave for
      the post of a Classify step. */
  function Outcome(step: Step, classified: Classification, fileExists: bool): Classification {
    match step
    case Classify(_, byReverse) => if byReverse then NotFoundFallback(classified, fileExists) else classified
    case Settled(path, notes) => NotFoundFallback(Classification(path, notes), fileExists)
  }

  /** Folders starting with "!" go under the source directory, the rest under
      the target directory. */
  function RootFor(sub: string, source: string, target: string): string {
    if Flagged(sub) then source else target
  }

  // ---------------------------------------------------------------------------
  // Properties

  /** The switch and the threshold: off sends raw, on always converts, and a
      threshold sends raw exactly the files smaller than it, so 0 converts
      every file where a switched-off setting converts none. */
  lemma ConvertDecision(c: ConvertSetting, size: nat)
    ensures c == Switch(false) ==> SendsRaw(c, size)
    ensures c == Switch(true) ==> !SendsRaw(c, size)
    ensures c.Threshold? ==> (SendsRaw(c, size) <==> size < c.bytes)
    ensures c == Threshold(0) ==> !SendsRaw(c, size)
  {
  }

  /** Only a PNG, JPEG or GIF that decodes is re-encoded; a raw upload never
      fails. */
  lemma ConvertOutcomes(c: ConvertSetting, size: int, mime: string, decodes: bool)
    ensures ConvertImage(c, size, mime, decodes) == Raw <==> SendsRaw(c, size)
    ensures ConvertImage(c, size, mime, decodes) == Jpeg ==> decodes && mime in {"image/png", "image/jpeg", "image/gif"}
    ensures !SendsRaw(c, size) && decodes && mime in {"image/png", "image/jpeg", "image/gif"}
            ==> ConvertImage(c, size, mime, decodes) == Jpeg
  {
  }

  /** Coercion: numeric text becomes a threshold ("0" included), empty text
      switches conversion off, any other text switches it on. */
  lemma CoerceConvertCases(s: string)
    ensures IsNumeric(s) ==> CoerceConvert(Text(s)) == Threshold(IntOf(s))
    ensures s == "" ==> CoerceConvert(Text(s)) == Switch(false)
    ensures !IsNumeric(s) && s != "" ==> CoerceConvert(Text(s)) == Switch(true)
  {
  }

  /** The text of a non-negative number is read back as that number. */
  lemma CoerceDecimal(n: nat)
    ensures IsNumeric(DecimalString(n))
    ensures CoerceConvert(Text(DecimalString(n))) == Threshold(n)
  {
    DigitsValueNatDigits(n);
  }

  /** Kept ids come from the candidates, in their order; a candidate with a post
      id and a file URL is never dropped. */
  lemma {:induction false} KeptFromCandidates(entries: seq<Candidate>, from: seq<Candidate>)
    ensures |Kept(entries, from)| <= |from|
    ensures forall id :: id in Kept(entries, from) ==> exists c :: c in from && c.postId == Some(id)
    ensures forall c :: c in from && c.postId.Some? && !PhpEmpty(c.fileUrl) ==> c.postId.value in Kept(entries, from)
    decreases |from|
  {
    if from != [] {
      KeptFromCandidates(entries, from[1..]);
      forall id | id in Kept(entries, from) ensures exists c :: c in from && c.postId == Some(id) {
        if id in Kept(entries, from[1..]) {
          var c :| c in from[1..] && c.postId == Some(id);
          assert c in from;
        } else {
          assert from[0] in from;
        }
      }
    }
  }

  /** A single candidate is always kept, whatever its listing says. */
  lemma SingleCandidateKept(c: Candidate)
    requires c.postId.Some?
    ensures SearchResult(Some([c])) == Some([c.postId.value])
  {
    assert [c][1..] == [];
    assert Kept([c], [c]) == [c.postId.value] + Kept([c], []);
    assert Kept([c], [c]) == [c.postId.value];
  }

  /** An array whose first entry has no post id counts as no result. */
  lemma NoFirstIdNoResult(entries: seq<Candidate>)
    requires entries == [] || entries[0].postId.None?
    ensures SearchResult(Some(entries)) == Some([])
  {
  }

  /** A 429 is retried once: a second 429 is a failure. */
  lemma ThrottledTwiceFails(upload: Upload)
    ensures ReverseSearch(upload, TooManyRequests, TooManyRequests) == None
    ensures upload != Unconvertible ==> forall e :: ReverseSearch(upload, TooManyRequests, Body(e)) == SearchResult(e)
  {
  }

  /** array_unique keeps each id once, keeps every id, and keeps the first. */
  lemma {:induction false} DedupProperties(ids: seq<int>)
    ensures forall i, j :: 0 <= i < j < |Dedup(ids)| ==> Dedup(ids)[i] != Dedup(ids)[j]
    ensures forall x :: x in Dedup(ids) <==> x in ids
    ensures ids != [] ==> Dedup(ids) != [] && Dedup(ids)[0] == ids[0]
    decreases |ids|
  {
    if ids != [] {
      var init := ids[..|ids| - 1];
      DedupProperties(init);
      assert ids == init + [ids[|ids| - 1]];
      forall x ensures x in Dedup(ids) <==> x in ids {
        assert x in ids <==> x in init || x == ids[|ids| - 1];
      }
      if init != [] {
        assert init[0] == ids[0];
      }
    }
  }

  /** One distinct id exactly when every id equals the first. */
  lemma DedupSingle(ids: seq<int>)
    requires ids != []
    ensures |Dedup(ids)| == 1 <==> forall i :: 0 <= i < |ids| ==> ids[i] == ids[0]
  {
    DedupProperties(ids);
    if |Dedup(ids)| == 1 {
      forall i | 0 <= i < |ids| ensures ids[i] == ids[0] {
        assert ids[i] in Dedup(ids);
      }
    } else {
      var x := Dedup(ids)[1];
      assert x in ids && x != ids[0];
    }
  }

  /** The outcome table: a hash match is categorized as it is; a miss without
      reverse search is "! Not found"; a failed search is "! Error"; an empty
      search is "! Not found"; one distinct match is categorized; several are
      "! Multiple matches" with one URL per distinct post. */
  lemma OutcomeTable(lookup: IdLookup, reverseSearch: bool, reverse: Option<seq<int>>, classified: Classification)
    ensures Truthy(lookup) ==> Outcome(Resolve(lookup, reverseSearch, reverse), classified, true) == classified
    ensures !Truthy(lookup) && !reverseSearch ==> Outcome(Resolve(lookup, reverseSearch, reverse), classified, true).path == "! Not found"
    ensures !Truthy(lookup) && reverseSearch && reverse.None? ==> Outcome(Resolve(lookup, reverseSearch, reverse), classified, true).path == "! Error"
    ensures !Truthy(lookup) && reverseSearch && reverse == Some([]) ==> Outcome(Resolve(lookup, reverseSearch, reverse), classified, true).path == "! Not found"
    ensures !Truthy(lookup) && reverseSearch && reverse.Some? && |Dedup(reverse.value)| > 1 ==>
              Outcome(Resolve(lookup, reverseSearch, reverse), classified, true)
              == Classification("! Multiple matches", MatchNotes(Dedup(reverse.value)))
    ensures !Truthy(lookup) && reverseSearch && reverse.Some? && |Dedup(reverse.value)| == 1 ==>
              Resolve(lookup, reverseSearch, reverse) == Classify(reverse.value[0], true)
  {
    if reverse.Some? && reverse.value != [] {
      DedupProperties(reverse.value);
    }
  }

  /** The seeded sentinel is not a hit: such a file goes to the reverse search. */
  lemma SentinelIsMiss(reverseSearch: bool, reverse: Option<seq<int>>)
    ensures Resolve(Sentinel, reverseSearch, reverse) == Resolve(Missing, reverseSearch, reverse)
    ensures Resolve(Sentinel, reverseSearch, reverse).Settled? || Resolve(Sentinel, reverseSearch, reverse).byReverse
  {
  }

  /** A post found by hash keeps an empty folder; the same post found by
      reverse search is sent to "! Not found". */
  lemma EmptyFolderDependsOnRoute(id: int, classified: Classification)
    requires id != 0 && classified.path == ""
    ensures Outcome(Resolve(Id(id), true, Some([id])), classified, true).path == ""
    ensures Outcome(Resolve(Missing, true, Some([id])), classified, true).path == "! Not found"
  {
    assert [id][..0] == [];
    assert Dedup([id]) == [id];
  }

  /** The root is the source directory exactly for "!" folders; a rated
      conflict such as "Explicit/! Conflict" goes to the target. */
  lemma RootChoice(sub: string, source: string, target: string)
    ensures RootFor(sub, source, target) == (if sub != [] && sub[0] == '!' then source else target)
    ensures RootFor("Explicit/! Conflict", source, target) == target
    ensures RootFor("! Multiple matches", source, target) == source
  {
  }

  // ---------------------------------------------------------------------------
  // Positional arguments

  /** The last path segment. */
  function Basename(path: string): string {
    var parts := Split(path, DS);
    parts[|parts| - 1]
  }

  /** A config file argument: the text between the first and second dot of its
      name must be "cfg". */
  predicate IsConfigName(path: string) {
    var parts := Split(Basename(path), '.');
    |parts| > 1 && parts[1] == "cfg"
  }

  /** The paths and config files read from the command line, or the message of
      the error that stops the run. */
  datatype Args = Args(source: Option<string>, target: Option<string>, configs: seq<string>) | ArgError(message: string)

  const BothSet: string := "Target and source paths are already set!"

  /** One argument: a directory fills the target, moving a previous target to
      the source; a file must be a config file. */
  function TakeArg(a: Args, arg: string, dirs: set<string>, files: set<string>): Args {
    if a.ArgError? then a
    else
      var afterDir :=
        if arg !in dirs then a
        else if a.target.Some? then
          (if a.source.Some? then ArgError(BothSet) else Args(a.target, Some(arg), a.configs))
        else Args(a.source, Some(arg), a.configs);
      if afterDir.ArgError? || arg !in files then afterDir
      else if !IsConfigName(arg) then ArgError("File is not a config file type (.cfg): " + arg)
      else Args(afterDir.source, afterDir.target, afterDir.configs + [arg])
  }

  function TakeArgs(args: seq<string>, dirs: set<string>, files: set<string>): Args
    decreases |args|
  {
    if args == [] then Args(None, None, [])
    else TakeArg(TakeArgs(args[..|args| - 1], dirs, files), args[|args| - 1], dirs, files)
  }

  /** The argument loop; it stops at the first error, as the run exits there. */
  method ReadArguments(args: seq<string>, dirs: set<string>, files: set<string>) returns (a: Args)
    ensures a == TakeArgs(args, dirs, files)
  {
    a := Args(None, None, []);
    var i := 0;
    while i < |args|
      invariant 0 <= i <= |args|
      invariant a == TakeArgs(args[..i], dirs, files) && a.Args?
    {
      var arg := args[i];
      assert args[..i + 1][..i] == args[..i];
      if arg in dirs {
        if a.target.Some? {
          if a.source.Some? {
            a := ArgError(BothSet);
            ErrorIsFinal(args[..i + 1], args[i + 1..], dirs, files);
            assert args[..i + 1] + args[i + 1..] == args;
            return;
          }
          a := Args(a.target, Some(arg), a.configs);
        } else {
          a := Args(a.source, Some(arg), a.configs);
        }
      }
      if arg in files {
        if !IsConfigName(arg) {
          a := ArgError("File is not a config file type (.cfg): " + arg);
          ErrorIsFinal(args[..i + 1], args[i + 1..], dirs, files);
          assert args[..i + 1] + args[i + 1..] == args;
          return;
        }
        a := Args(a.source, a.target, a.configs + [arg]);
      }
      i := i + 1;
    }
    assert args[..i] == args;
  }

  /** After the prompt: the target falls back to the answer (or the working
      directory for an empty answer), which must be a directory once trimmed;
      the source falls back to the target. */
  function SettlePaths(a: Args, answer: string, cwd: string, dirs: set<string>): Args {
    if a.ArgError? then a
    else
      var target := if a.target.Some? then a.target.value else if PhpEmpty(answer) then cwd else answer;
      if a.target.None? && TrimRight(TrimLeft(target)) !in dirs then ArgError("Invalid path!")
      else Args(if a.source.Some? then a.source else Some(target), Some(target), a.configs)
  }

  /** One directory is the target; two are the source and then the target; a
      third is an error. */
  lemma DirectoryArguments(a: string, b: string, c: string, dirs: set<string>, files: set<string>)
    requires a in dirs && b in dirs && c in dirs
    requires a !in files && b !in files && c !in files
    ensures TakeArgs([a], dirs, files) == Args(None, Some(a), [])
    ensures TakeArgs([a, b], dirs, files) == Args(Some(a), Some(b), [])
    ensures TakeArgs([a, b, c], dirs, files) == ArgError(BothSet)
  {
    assert [a, b][..1] == [a];
    assert [a, b, c][..2] == [a, b];
  }

  /** With one directory given, source and target are the same. */
  lemma OneDirectorySourceIsTarget(a: string, dirs: set<string>, files: set<string>, answer: string, cwd: string)
    requires a in dirs && a !in files
    ensures SettlePaths(TakeArgs([a], dirs, files), answer, cwd, dirs) == Args(Some(a), Some(a), [])
  {
  }

  /** Only the second dot-separated piece of a config file's name is checked. */
  lemma ConfigNameSecondPiece(stem: string, ext: string)
    requires '.' !in stem && DS !in stem && '.' !in ext && DS !in ext
    ensures IsConfigName(stem + "." + ext) <==> ext == "cfg"
  {
    var name := stem + "." + ext;
    assert name == Join([stem, ext], '.');
    SplitJoin([stem, ext], '.');
    assert name == Join([name], DS);
    SplitJoin([name], DS);
  }

  /** An error stays an error whatever follows. */
  lemma {:induction false} ErrorIsFinal(args: seq<string>, more: seq<string>, dirs: set<string>, files: set<string>)
    requires TakeArgs(args, dirs, files).ArgError?
    ensures TakeArgs(args + more, dirs, files) == TakeArgs(args, dirs, files)
    decreases |more|
  {
    if more != [] {
      var init := more[..|more| - 1];
      ErrorIsFinal(args, init, dirs, files);
      assert (args + more)[..|args + more| - 1] == args + init;
    } else {
      assert args + more == args;
    }
  }
}
