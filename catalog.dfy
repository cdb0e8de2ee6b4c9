/** The lookup caches in front of the e621 posts endpoint: the post cache keyed
    by post id, the hash cache keyed by file md5, and the time of the last
    answered request. The endpoint is a function from the query text and the
    number of requests sent before it to a reply; the wall clock is a function
    from that same number to a timestamp. */
module Catalog {
  import opened Strings
  import opened Tags
  import opened Classifier
  import opened Folders
  import opened Routing

  /** A post as the endpoint returns it. A missing rating or tag map is None. */
  datatype Post = Post(id: int, md5: string, rating: Option<string>, tags: Option<seq<Category>>)

  /** What one request to posts.json gives. */
  datatype Reply =
    | Decoded(posts: Option<seq<Post>>)  // a body that decodes to an array, with or without "posts"
    | NotArray                           // a body that does not decode to an array
    | Throttled(message: string)         // the request failed with HTTP 429
    | Failed(message: string)            // any other exception

  /** What getPosts returns: always an array, holding either the (optional)
      "posts" list or an "error" text. */
  datatype Answer = Result(posts: Option<seq<Post>>) | ApiError(message: string)

  /** A hash cache entry: a post id, or the empty-array sentinel the prefetch
      stores before asking. */
  datatype Md5Entry = PostId(id: int) | Seeded

  const MaxTerms: nat := 6
  const TooManyTerms: string := "You can only search up to 6 tags."
  const InvalidData: string := "Data received from e621.net API is invalid"

  function ExceptionText(message: string): string {
    "Exception: " + "\n" + message
  }

  // ---------------------------------------------------------------------------
  // getPosts as a function of the state it reads and writes

  /** The whitespace-separated terms of a tag expression. */
  function Terms(tags: string): seq<string> {
    Split(Normalize(tags), ' ')
  }

  predicate OverTermLimit(tags: string) {
    Count(Normalize(tags), ' ') + 1 > MaxTerms
  }

  /** The cache key named by a term: its text after the first three characters,
      read as a PHP array key. */
  function KeyOf(term: string): Option<int> {
    if |term| < 3 then None else ParseKey(term[3..])
  }

  /** The cached post named by the first term that contains "id:" and whose key
      is cached. */
  function CachedTerm(cache: map<int, Post>, terms: seq<string>): Option<Post> {
    if terms == [] then None
    else if Contains(terms[0], "id:") && KeyOf(terms[0]).Some? && KeyOf(terms[0]).value in cache then
      Some(cache[KeyOf(terms[0]).value])
    else CachedTerm(cache, terms[1..])
  }

  /** Returned posts enter the cache only under an id not yet present. */
  function InsertNew(cache: map<int, Post>, posts: seq<Post>): map<int, Post>
    decreases |posts|
  {
    if posts == [] then cache
    else InsertNew(if posts[0].id in cache then cache else cache[posts[0].id := posts[0]], posts[1..])
  }

  /** Every entry of `before` is in `after`, unchanged. */
  predicate AppendOnly(before: map<int, Post>, after: map<int, Post>) {
    forall k :: k in before ==> k in after && after[k] == before[k]
  }

  /** The outcome of one getPosts call: the answer and the new post cache,
      request log and last-request time. */
  datatype Exchange = Exchange(answer: Answer, cache: map<int, Post>, sent: seq<string>, lastRequest: int)

  /** getPosts: the term limit, the `id:` shortcut, one request, and one more
      after a 429 unless this already is the retry. */
  function Fetch(remote: (string, nat) -> Reply, clock: nat -> int, cache: map<int, Post>, sent: seq<string>,
                 lastRequest: int, tags: string, isRetry: bool): Exchange
    decreases if isRetry then 0 else 1
  {
    if OverTermLimit(tags) then Exchange(ApiError(TooManyTerms), cache, sent, lastRequest)
    else match CachedTerm(cache, Terms(tags))
      case Some(p) => Exchange(Result(Some([p])), cache, sent, lastRequest)
      case None =>
        var sent' := sent + [tags];
        match remote(tags, |sent|)
        case Decoded(posts) =>
          Exchange(Result(posts), if posts.Some? then InsertNew(cache, posts.value) else cache, sent', clock(|sent|))
        case NotArray => Exchange(ApiError(InvalidData), cache, sent', clock(|sent|))
        case Throttled(message) =>
          if isRetry then Exchange(ApiError(ExceptionText(message)), cache, sent', lastRequest)
          else Fetch(remote, clock, cache, sent', lastRequest, tags, true)
        case Failed(message) => Exchange(ApiError(ExceptionText(message)), cache, sent', lastRequest)
  }

  /** The query getPostIdByMd5 sends. */
  function Md5Query(md5: string): string {
    "md5:" + md5 + " status:any"
  }

  /** implode(',', ...) of any list of hashes. */
  function Implode(parts: seq<string>): string {
    if parts == [] then "" else Join(parts, ',')
  }

  /** The query batchMd5 sends. */
  function BatchQuery(md5s: seq<string>): string {
    "md5:" + Implode(md5s) + " status:any"
  }

  /** The query getPostExists sends. */
  function ExistsQuery(id: int): string {
    "id:" + DecimalString(id)
  }

  /** The query getPostRating and getPostTags send. */
  function PostQuery(id: int): string {
    "id:" + DecimalString(id) + " status:any"
  }

  /** The first post of an answer, when it has one. */
  function FirstPost(answer: Answer): Option<Post> {
    if answer.Result? && answer.posts.Some? && answer.posts.value != [] then Some(answer.posts.value[0]) else None
  }

  function FromEntry(e: Md5Entry): IdLookup {
    match e
    case PostId(id) => Id(id)
    case Seeded => Sentinel
  }

  /** batchMd5's update: every returned post overwrites its hash's entry. */
  function RecordHashes(md5Cache: map<string, Md5Entry>, posts: seq<Post>): map<string, Md5Entry>
    decreases |posts|
  {
    if posts == [] then md5Cache
    else RecordHashes(md5Cache[posts[0].md5 := PostId(posts[0].id)], posts[1..])
  }

  /** The posts.json index build: a hash keeps the first id seen for it. */
  function IndexFirst(md5Cache: map<string, Md5Entry>, posts: seq<Post>): map<string, Md5Entry>
    decreases |posts|
  {
    if posts == [] then md5Cache
    else IndexFirst(if posts[0].md5 in md5Cache then md5Cache else md5Cache[posts[0].md5 := PostId(posts[0].id)], posts[1..])
  }

  // ---------------------------------------------------------------------------
  // Properties of the cache functions

  /** The six-term limit counts the terms after whitespace is normalised. */
  lemma TermLimitCountsTerms(tags: string)
    ensures OverTermLimit(tags) <==> |Terms(tags)| > MaxTerms
  {
    SplitCount(Normalize(tags), ' ');
  }

  /** Too many terms: the error, and no request. */
  lemma TermLimitSendsNothing(remote: (string, nat) -> Reply, clock: nat -> int, cache: map<int, Post>, sent: seq<string>,
                              lastRequest: int, tags: string, isRetry: bool)
    requires |Terms(tags)| > MaxTerms
    ensures Fetch(remote, clock, cache, sent, lastRequest, tags, isRetry)
         == Exchange(ApiError(TooManyTerms), cache, sent, lastRequest)
  {
    TermLimitCountsTerms(tags);
  }

  /** A term can only name a cached post when "id:" starts it: a later "id:"
      would put its colon among the characters read as the key. */
  lemma KeyNeedsPrefix(term: string)
    requires Contains(term, "id:") && KeyOf(term).Some?
    ensures StartsWith(term, "id:")
  {
    var i :| 0 <= i <= |term| && OccursAt(term, "id:", i);
    assert term[i + 2] == ':';
  }

  /** A cache hit is the cached post of the first term that starts with "id:"
      and whose key is cached. */
  lemma {:induction false} CachedTermIsFirst(cache: map<int, Post>, terms: seq<string>)
    ensures match CachedTerm(cache, terms)
            case Some(p) =>
              exists i :: 0 <= i < |terms| && StartsWith(terms[i], "id:") && KeyOf(terms[i]).Some?
                && KeyOf(terms[i]).value in cache && p == cache[KeyOf(terms[i]).value]
            case None =>
              forall i :: 0 <= i < |terms| && StartsWith(terms[i], "id:") && KeyOf(terms[i]).Some? ==> KeyOf(terms[i]).value !in cache
    decreases |terms|
  {
    if terms != [] {
      var t := terms[0];
      if Contains(t, "id:") && KeyOf(t).Some? && KeyOf(t).value in cache {
        KeyNeedsPrefix(t);
      } else {
        CachedTermIsFirst(cache, terms[1..]);
        match CachedTerm(cache, terms[1..])
        case Some(p) =>
          var i :| 0 <= i < |terms[1..]| && StartsWith(terms[1..][i], "id:") && KeyOf(terms[1..][i]).Some?
                   && KeyOf(terms[1..][i]).value in cache && p == cache[KeyOf(terms[1..][i]).value];
          assert terms[i + 1] == terms[1..][i];
        case None =>
          forall i | 0 <= i < |terms| && StartsWith(terms[i], "id:") && KeyOf(terms[i]).Some?
            ensures KeyOf(terms[i]).value !in cache
          {
            if i == 0 {
              assert OccursAt(t, "id:", 0);
            } else {
              assert terms[i] == terms[1..][i - 1];
            }
          }
      }
    }
  }

  lemma PostsCons(posts: seq<Post>)
    requires posts != []
    ensures forall q :: q in posts <==> q == posts[0] || q in posts[1..]
  {
    forall q | q in posts ensures q == posts[0] || q in posts[1..] {
      var i :| 0 <= i < |posts| && posts[i] == q;
      if i > 0 {
        assert posts[1..][i - 1] == q;
      }
    }
  }

  lemma IdSetCons(posts: seq<Post>)
    requires posts != []
    ensures (set q | q in posts :: q.id) == {posts[0].id} + set q | q in posts[1..] :: q.id
  {
    PostsCons(posts);
  }

  lemma Md5SetCons(posts: seq<Post>)
    requires posts != []
    ensures (set q | q in posts :: q.md5) == {posts[0].md5} + set q | q in posts[1..] :: q.md5
  {
    PostsCons(posts);
  }

  /** Inserting never changes an entry already present. */
  lemma {:induction false} InsertNewKeeps(cache: map<int, Post>, posts: seq<Post>)
    ensures forall k :: k in cache ==> k in InsertNew(cache, posts) && InsertNew(cache, posts)[k] == cache[k]
    decreases |posts|
  {
    if posts != [] {
      var next := if posts[0].id in cache then cache else cache[posts[0].id := posts[0]];
      InsertNewKeeps(next, posts[1..]);
    }
  }

  /** After inserting, exactly the old ids and the returned ids are cached, and
      a new id holds the first returned post with that id. */
  lemma {:induction false} InsertNewFirstWins(cache: map<int, Post>, posts: seq<Post>)
    ensures InsertNew(cache, posts).Keys == cache.Keys + set p | p in posts :: p.id
    ensures forall i :: 0 <= i < |posts| && posts[i].id !in cache
              && (forall j :: 0 <= j < i ==> posts[j].id != posts[i].id)
              ==> InsertNew(cache, posts)[posts[i].id] == posts[i]
    decreases |posts|
  {
    if posts != [] {
      var p := posts[0];
      var next := if p.id in cache then cache else cache[p.id := p];
      var rest := posts[1..];
      InsertNewFirstWins(next, rest);
      InsertNewKeeps(next, rest);
      IdSetCons(posts);
      forall i | 0 <= i < |posts| && posts[i].id !in cache && (forall j :: 0 <= j < i ==> posts[j].id != posts[i].id)
        ensures InsertNew(cache, posts)[posts[i].id] == posts[i]
      {
        if i > 0 {
          assert rest[i - 1] == posts[i];
          assert posts[i].id != p.id;
          forall j | 0 <= j < i - 1 ensures rest[j].id != rest[i - 1].id {
            assert rest[j] == posts[j + 1];
          }
        }
      }
    }
  }

  /** A local answer (term limit or cache hit) sends nothing and changes nothing;
      anything else sends the query once, or twice after a first 429. */
  lemma FetchRequests(remote: (string, nat) -> Reply, clock: nat -> int, cache: map<int, Post>, sent: seq<string>,
                      lastRequest: int, tags: string, isRetry: bool)
    ensures var e := Fetch(remote, clock, cache, sent, lastRequest, tags, isRetry);
            && ((OverTermLimit(tags) || CachedTerm(cache, Terms(tags)).Some?) ==>
                  e.sent == sent && e.cache == cache && e.lastRequest == lastRequest)
            && ((!OverTermLimit(tags) && CachedTerm(cache, Terms(tags)).None?) ==>
                  && |sent| < |e.sent| <= |sent| + 2
                  && e.sent == sent + [tags] + (if |e.sent| == |sent| + 2 then [tags] else [])
                  && (|e.sent| == |sent| + 2 ==> !isRetry && remote(tags, |sent|).Throttled?))
  {
  }

  /** The answer of a call that sent requests is the last reply, decoded; a
      posts list in it comes from the endpoint. */
  lemma FetchAnswer(remote: (string, nat) -> Reply, clock: nat -> int, cache: map<int, Post>, sent: seq<string>,
                    lastRequest: int, tags: string, isRetry: bool)
    ensures var e := Fetch(remote, clock, cache, sent, lastRequest, tags, isRetry);
            |e.sent| > |sent| ==>
              var last := remote(tags, |e.sent| - 1);
              && (e.answer.Result? <==> last.Decoded?)
              && (last.Decoded? ==> e.answer.posts == last.posts)
              && (last.NotArray? ==> e.answer == ApiError(InvalidData))
              && (last.Failed? ==> e.answer == ApiError(ExceptionText(last.message)))
              && (last.Throttled? ==> e.answer == ApiError(ExceptionText(last.message)))
  {
  }

  /** A cache hit answers with the one cached post. */
  lemma FetchCacheHit(remote: (string, nat) -> Reply, clock: nat -> int, cache: map<int, Post>, sent: seq<string>,
                      lastRequest: int, tags: string, isRetry: bool)
    requires !OverTermLimit(tags) && CachedTerm(cache, Terms(tags)).Some?
    ensures Fetch(remote, clock, cache, sent, lastRequest, tags, isRetry).answer
         == Result(Some([CachedTerm(cache, Terms(tags)).value]))
  {
  }

  /** The post cache only grows, and an entry once present never changes. */
  lemma FetchAppendOnly(remote: (string, nat) -> Reply, clock: nat -> int, cache: map<int, Post>, sent: seq<string>,
                        lastRequest: int, tags: string, isRetry: bool)
    ensures AppendOnly(cache, Fetch(remote, clock, cache, sent, lastRequest, tags, isRetry).cache)
    decreases if isRetry then 0 else 1
  {
    if !OverTermLimit(tags) && CachedTerm(cache, Terms(tags)).None? {
      match remote(tags, |sent|)
      case Decoded(posts) =>
        if posts.Some? {
          InsertNewKeeps(cache, posts.value);
        }
      case NotArray =>
      case Throttled(_) =>
        if !isRetry {
          FetchAppendOnly(remote, clock, cache, sent + [tags], lastRequest, tags, true);
        }
      case Failed(_) =>
    }
  }

  /** The last-request time moves only when a request was answered with a body. */
  lemma FetchLastRequest(remote: (string, nat) -> Reply, clock: nat -> int, cache: map<int, Post>, sent: seq<string>,
                         lastRequest: int, tags: string, isRetry: bool)
    ensures var e := Fetch(remote, clock, cache, sent, lastRequest, tags, isRetry);
            || e.lastRequest == lastRequest
            || (|e.sent| > |sent| && e.lastRequest == clock(|e.sent| - 1)
                && (remote(tags, |e.sent| - 1).Decoded? || remote(tags, |e.sent| - 1).NotArray?))
  {
  }

  /** Asking for a cached post by id, as getPostRating and getPostTags do, is
      answered from the cache. */
  lemma PostQueryCached(remote: (string, nat) -> Reply, clock: nat -> int, cache: map<int, Post>, sent: seq<string>,
                        lastRequest: int, id: int, isRetry: bool)
    requires id in cache
    ensures Fetch(remote, clock, cache, sent, lastRequest, PostQuery(id), isRetry)
         == Exchange(Result(Some([cache[id]])), cache, sent, lastRequest)
  {
    var d := DecimalString(id);
    var term := "id:" + d;
    IdTermTidy(id);
    var q := PostQuery(id);
    assert q == Join([term, "status:any"], ' ');
    SplitJoin([term, "status:any"], ' ');
    NormalizeTidy(q);
    SplitCount(q, ' ');
    assert Terms(q) == [term, "status:any"];
    IdTermNamesId(id);
  }

  /** Asking whether a cached post exists, as getPostExists does, is answered
      from the cache. */
  lemma ExistsQueryCached(remote: (string, nat) -> Reply, clock: nat -> int, cache: map<int, Post>, sent: seq<string>,
                          lastRequest: int, id: int, isRetry: bool)
    requires id in cache
    ensures Fetch(remote, clock, cache, sent, lastRequest, ExistsQuery(id), isRetry)
         == Exchange(Result(Some([cache[id]])), cache, sent, lastRequest)
  {
    var q := ExistsQuery(id);
    IdTermTidy(id);
    assert q == Join([q], ' ');
    SplitJoin([q], ' ');
    NormalizeTidy(q);
    SplitCount(q, ' ');
    IdTermNamesId(id);
  }

  lemma IdTermTidy(id: int)
    ensures ' ' !in "id:" + DecimalString(id)
    ensures Tidy("id:" + DecimalString(id))
    ensures Tidy(PostQuery(id))
  {
    var t := "id:" + DecimalString(id);
    forall i | 0 <= i < |t| ensures t[i] != ' ' && !IsPcreSpace(t[i]) && t[i] as int != 0 {
      if i >= 3 {
        assert t[i] == DecimalString(id)[i - 3];
      }
    }
    var q := PostQuery(id);
    forall i | 0 <= i < |q| ensures IsPcreSpace(q[i]) ==> q[i] == ' '
      ensures q[i] as int != 0
      ensures i < |q| - 1 ==> !(q[i] == ' ' && q[i + 1] == ' ')
    {
      if i < |t| {
        assert q[i] == t[i];
      }
      if i + 1 < |t| {
        assert q[i + 1] == t[i + 1];
      }
    }
  }

  lemma IdTermNamesId(id: int)
    ensures Contains("id:" + DecimalString(id), "id:")
    ensures KeyOf("id:" + DecimalString(id)) == Some(id)
  {
    var t := "id:" + DecimalString(id);
    assert OccursAt(t, "id:", 0);
    assert t[3..] == DecimalString(id);
    ParseDecimal(id);
  }

  /** batchMd5 overwrites: every hash it was given a post for ends with the id
      of the last such post, and no other entry changes. */
  lemma {:induction false} RecordHashesLastWins(md5Cache: map<string, Md5Entry>, posts: seq<Post>)
    ensures RecordHashes(md5Cache, posts).Keys == md5Cache.Keys + set p | p in posts :: p.md5
    ensures forall h :: h in md5Cache && (forall p :: p in posts ==> p.md5 != h)
              ==> RecordHashes(md5Cache, posts)[h] == md5Cache[h]
    ensures forall i :: 0 <= i < |posts| && (forall j :: i < j < |posts| ==> posts[j].md5 != posts[i].md5)
              ==> RecordHashes(md5Cache, posts)[posts[i].md5] == PostId(posts[i].id)
    decreases |posts|
  {
    if posts != [] {
      var p := posts[0];
      var rest := posts[1..];
      RecordHashesLastWins(md5Cache[p.md5 := PostId(p.id)], rest);
      Md5SetCons(posts);
      forall h | h in md5Cache && (forall q :: q in posts ==> q.md5 != h)
        ensures RecordHashes(md5Cache, posts)[h] == md5Cache[h]
      {
        assert p in posts;
        forall q | q in rest ensures q.md5 != h {
          assert q in posts;
        }
      }
      forall i | 0 <= i < |posts| && (forall j :: i < j < |posts| ==> posts[j].md5 != posts[i].md5)
        ensures RecordHashes(md5Cache, posts)[posts[i].md5] == PostId(posts[i].id)
      {
        if i == 0 {
          forall q | q in rest ensures q.md5 != p.md5 {
            var j :| 0 <= j < |rest| && rest[j] == q;
            assert posts[j + 1] == q;
          }
        } else {
          assert rest[i - 1] == posts[i];
          forall j | i - 1 < j < |rest| ensures rest[j].md5 != rest[i - 1].md5 {
            assert rest[j] == posts[j + 1];
          }
        }
      }
    }
  }

  /** The posts.json index keeps the first id: an entry already present stays,
      and a new hash gets the id of the first post carrying it. */
  lemma {:induction false} IndexFirstWins(md5Cache: map<string, Md5Entry>, posts: seq<Post>)
    ensures IndexFirst(md5Cache, posts).Keys == md5Cache.Keys + set p | p in posts :: p.md5
    ensures forall h :: h in md5Cache ==> IndexFirst(md5Cache, posts)[h] == md5Cache[h]
    ensures forall i :: 0 <= i < |posts| && posts[i].md5 !in md5Cache
              && (forall j :: 0 <= j < i ==> posts[j].md5 != posts[i].md5)
              ==> IndexFirst(md5Cache, posts)[posts[i].md5] == PostId(posts[i].id)
    decreases |posts|
  {
    if posts != [] {
      var p := posts[0];
      var rest := posts[1..];
      var next := if p.md5 in md5Cache then md5Cache else md5Cache[p.md5 := PostId(p.id)];
      IndexFirstWins(next, rest);
      Md5SetCons(posts);
      forall i | 0 <= i < |posts| && posts[i].md5 !in md5Cache && (forall j :: 0 <= j < i ==> posts[j].md5 != posts[i].md5)
        ensures IndexFirst(md5Cache, posts)[posts[i].md5] == PostId(posts[i].id)
      {
        if i > 0 {
          assert rest[i - 1] == posts[i];
          assert posts[i].md5 != p.md5;
          forall j | 0 <= j < i - 1 ensures rest[j].md5 != rest[i - 1].md5 {
            assert rest[j] == posts[j + 1];
          }
        }
      }
    }
  }

  /** Two posts with one hash: the dump load keeps the first id, batchMd5 the last. */
  lemma DumpFirstBatchLast(md5Cache: map<string, Md5Entry>, a: Post, b: Post)
    requires a.md5 == b.md5 && a.md5 !in md5Cache
    ensures a.md5 in IndexFirst(md5Cache, [a, b]) && a.md5 in RecordHashes(md5Cache, [a, b])
    ensures IndexFirst(md5Cache, [a, b])[a.md5] == PostId(a.id)
    ensures RecordHashes(md5Cache, [a, b])[a.md5] == PostId(b.id)
  {
    assert [a, b][1..] == [b];
    IndexFirstWins(md5Cache, [a, b]);
    RecordHashesLastWins(md5Cache, [a, b]);
  }

  // ---------------------------------------------------------------------------
  // The posts.json dump

  /** A decoded PHP array: entries in iteration order, each key once. */
  ghost predicate DistinctKeys(entries: seq<(int, Post)>) {
    forall i, j :: 0 <= i < j < |entries| ==> entries[i].0 != entries[j].0
  }

  type Dump = entries: seq<(int, Post)> | DistinctKeys(entries) witness []

  function DumpMap(dump: Dump): map<int, Post> {
    map i | 0 <= i < |dump| :: dump[i].0 := dump[i].1
  }

  function DumpPosts(dump: Dump): seq<Post> {
    seq(|dump|, i requires 0 <= i < |dump| => dump[i].1)
  }

  /** The gates switched off: both required-tag settings empty. */
  function NoGates(cfg: Config): (r: Config)
    ensures !GatesConfigured(r)
  {
    cfg.(requireAllTags := "", requireOneTag := "")
  }

  /** A rename: the file and the destination safeRename settles on (None where
      the retarget chain comes back on itself). */
  datatype Move = Move(from: string, to: Option<string>)

  /** The files a run moves, in order. */
  function Sources(moves: seq<Move>): seq<string> {
    if moves == [] then [] else [moves[0].from] + Sources(moves[1..])
  }

  /** A file found in the source directory: its name, whether it is still a
      regular file, and its content hash. */
  datatype LocalFile = LocalFile(name: string, isFile: bool, md5: string)

  /** The positions of the entries that are still files, in scan order. */
  function FileIndices(files: seq<LocalFile>): (r: seq<nat>)
    ensures forall k :: 0 <= k < |r| ==> r[k] < |files| && files[r[k]].isFile
    ensures forall k, l :: 0 <= k < l < |r| ==> r[k] < r[l]
    ensures forall i :: 0 <= i < |files| && files[i].isFile ==> i in r
  {
    if files == [] then []
    else
      var n := |files| - 1;
      var init := FileIndices(files[..n]);
      assert forall i :: 0 <= i < n ==> files[..n][i] == files[i];
      init + (if files[n].isFile then [n] else [])
  }

  /** The source paths of the entries that are files, in scan order. */
  function Paths(files: seq<LocalFile>, source: string): seq<string> {
    if files == [] then []
    else
      var n := |files| - 1;
      Paths(files[..n], source) + (if files[n].isFile then [source + [DS] + files[n].name] else [])
  }

  /** Paths has one entry per file, the k-th for the k-th of them. */
  lemma {:induction false} PathsIndexed(files: seq<LocalFile>, source: string)
    ensures |Paths(files, source)| == |FileIndices(files)|
    ensures forall k :: 0 <= k < |Paths(files, source)| ==>
              Paths(files, source)[k] == source + [DS] + files[FileIndices(files)[k]].name
    decreases |files|
  {
    if files != [] {
      var n := |files| - 1;
      var init := files[..n];
      PathsIndexed(init, source);
      assert FileIndices(files) == FileIndices(init) + (if files[n].isFile then [n] else []);
      assert forall i :: 0 <= i < n ==> init[i] == files[i];
    }
  }

  /** The source paths the run visits: one for each entry that is a file,
      the k-th for the k-th of them. */
  function SourcePaths(files: seq<LocalFile>, source: string): (r: seq<string>)
    ensures |r| == |FileIndices(files)|
    ensures forall k :: 0 <= k < |r| ==> r[k] == source + [DS] + files[FileIndices(files)[k]].name
  {
    PathsIndexed(files, source);
    Paths(files, source)
  }

  lemma {:induction false} PathsCons(f: LocalFile, rest: seq<LocalFile>, source: string)
    ensures Paths([f] + rest, source) == (if f.isFile then [source + [DS] + f.name] else []) + Paths(rest, source)
    decreases |rest|
  {
    if rest == [] {
      assert ([f] + rest)[..0] == [];
    } else {
      var n := |rest| - 1;
      var xs := [f] + rest;
      var last := if rest[n].isFile then [source + [DS] + rest[n].name] else [];
      PathsCons(f, rest[..n], source);
      assert xs[..|rest|] == [f] + rest[..n] && xs[|rest|] == rest[n];
      assert Paths(xs, source) == Paths([f] + rest[..n], source) + last;
    }
  }

  /** SourcePaths read from the front, as the run takes the files. */
  lemma SourcePathsCons(f: LocalFile, rest: seq<LocalFile>, source: string)
    ensures SourcePaths([f] + rest, source) == (if f.isFile then [source + [DS] + f.name] else []) + SourcePaths(rest, source)
  {
    PathsCons(f, rest, source);
  }

  /** The hashes of the files that are still files, in order. */
  function HashesOf(files: seq<LocalFile>): seq<string> {
    if files == [] then []
    else HashesOf(files[..|files| - 1]) + (if files[|files| - 1].isFile then [files[|files| - 1].md5] else [])
  }

  /** Seeding: each hash gets the sentinel. */
  function Seed(md5Cache: map<string, Md5Entry>, md5s: seq<string>): map<string, Md5Entry> {
    if md5s == [] then md5Cache
    else Seed(md5Cache, md5s[..|md5s| - 1])[md5s[|md5s| - 1] := Seeded]
  }

  lemma HashesOfAppend(files: seq<LocalFile>, f: LocalFile)
    ensures HashesOf(files + [f]) == HashesOf(files) + (if f.isFile then [f.md5] else [])
  {
    assert (files + [f])[..|files|] == files;
  }

  lemma SeedAppend(md5Cache: map<string, Md5Entry>, md5s: seq<string>, h: string)
    ensures Seed(md5Cache, md5s + [h]) == Seed(md5Cache, md5s)[h := Seeded]
  {
    assert (md5s + [h])[..|md5s|] == md5s;
  }

  /** Every file that is a file contributes its hash. */
  lemma {:induction false} HashesOfCovers(files: seq<LocalFile>)
    ensures forall f :: f in files && f.isFile ==> f.md5 in HashesOf(files)
    decreases |files|
  {
    if files != [] {
      var init := files[..|files| - 1];
      HashesOfCovers(init);
      assert files == init + [files[|files| - 1]];
    }
  }

  /** Seeding keeps every key and maps each seeded hash to the sentinel. */
  lemma {:induction false} SeedCovers(md5Cache: map<string, Md5Entry>, md5s: seq<string>)
    ensures Seed(md5Cache, md5s).Keys == md5Cache.Keys + set h | h in md5s
    ensures forall h :: h in md5s ==> Seed(md5Cache, md5s)[h] == Seeded
    decreases |md5s|
  {
    if md5s != [] {
      var init := md5s[..|md5s| - 1];
      SeedCovers(md5Cache, init);
      assert md5s == init + [md5s[|md5s| - 1]];
    }
  }

  /** Number of pages of 100 the prefetch asks about. */
  function Pages(n: nat): nat {
    (n + 99) / 100
  }

  // ---------------------------------------------------------------------------
  // The passes of the script as functions of the caches

  /** What the caches hold between two calls: the post cache, the hash cache,
      the request log and the last-request time. */
  datatype CacheState = CacheState(posts: map<int, Post>, md5: map<string, Md5Entry>, sent: seq<string>, lastRequest: int)

  /** One getPosts call from a state: the answer and the state after it. */
  function Ask(remote: (string, nat) -> Reply, clock: nat -> int, s: CacheState, tags: string): (Answer, CacheState) {
    var e := Fetch(remote, clock, s.posts, s.sent, s.lastRequest, tags, false);
    (e.answer, s.(posts := e.cache, sent := e.sent, lastRequest := e.lastRequest))
  }

  /** What getPostTags makes of an answer: the first post's tag map, or false. */
  function TagsOf(answer: Answer): Option<seq<Category>> {
    if FirstPost(answer).Some? then FirstPost(answer).value.tags else None
  }

  /** What getPostRating makes of an answer: the first post's rating, or false. */
  function RatingOf(answer: Answer): Option<string> {
    if FirstPost(answer).Some? then FirstPost(answer).value.rating else None
  }

  /** getPostIdByMd5 from a state: a cached entry as it is, otherwise the first
      post of the hash query. */
  function LookupHash(remote: (string, nat) -> Reply, clock: nat -> int, s: CacheState, md5: string): (IdLookup, CacheState) {
    if md5 in s.md5 then (FromEntry(s.md5[md5]), s)
    else
      var (answer, after) := Ask(remote, clock, s, Md5Query(md5));
      (if FirstPost(answer).Some? then Id(FirstPost(answer).value.id) else Missing, after)
  }

  /** The last post of a list that carries a hash. */
  function LastWith(posts: seq<Post>, h: string): (r: Option<Post>)
    ensures r.Some? ==> r.value in posts && r.value.md5 == h
    ensures r.None? <==> forall p :: p in posts ==> p.md5 != h
  {
    if posts == [] then None
    else
      assert forall p :: p in posts[1..] ==> p in posts;
      assert forall p :: p in posts ==> p == posts[0] || p in posts[1..];
      if LastWith(posts[1..], h).Some? then LastWith(posts[1..], h)
      else if posts[0].md5 == h then Some(posts[0])
      else None
  }

  /** batchMd5's update entry by entry: a hash the posts carry ends with the id
      of the last of them, any other entry is kept. */
  lemma {:induction false} RecordHashesEntry(md5Cache: map<string, Md5Entry>, posts: seq<Post>, h: string)
    requires h in md5Cache || LastWith(posts, h).Some?
    ensures h in RecordHashes(md5Cache, posts)
    ensures RecordHashes(md5Cache, posts)[h]
         == if LastWith(posts, h).Some? then PostId(LastWith(posts, h).value.id) else md5Cache[h]
    decreases |posts|
  {
    if posts != [] {
      RecordHashesEntry(md5Cache[posts[0].md5 := PostId(posts[0].id)], posts[1..], h);
    }
  }

  /** One page of the prefetch from a state: its hashes seeded with the
      sentinel, then one batchMd5 on them. */
  function PrefetchPage(remote: (string, nat) -> Reply, clock: nat -> int, s: CacheState, page: seq<LocalFile>): CacheState {
    var md5s := HashesOf(page);
    var seeded := Seed(s.md5, md5s);
    var (answer, after) := Ask(remote, clock, s, BatchQuery(md5s));
    after.(md5 := if answer.Result? && answer.posts.Some? then RecordHashes(seeded, answer.posts.value) else seeded)
  }

  /** The pages of 100 files from position `start` on. */
  function PrefetchFrom(remote: (string, nat) -> Reply, clock: nat -> int, s: CacheState, files: seq<LocalFile>, start: nat): CacheState
    decreases |files| - start
  {
    if start >= |files| then s
    else
      var end := if start + 100 < |files| then start + 100 else |files|;
      PrefetchFrom(remote, clock, PrefetchPage(remote, clock, s, files[start..end]), files, start + 100)
  }

  /** The prefetch runs only for more than one file and without a posts.json dump. */
  function PrefetchState(remote: (string, nat) -> Reply, clock: nat -> int, s: CacheState, files: seq<LocalFile>, loadedDump: bool): CacheState {
    if |files| > 1 && !loadedDump then PrefetchFrom(remote, clock, s, files, 0) else s
  }

  /** After a page each of its hashes holds the id of the last post the batch
      answer lists for it; it keeps the sentinel when the answer is not a posts
      list or lists no post with that hash. */
  lemma PrefetchPageEntries(remote: (string, nat) -> Reply, clock: nat -> int, s: CacheState, page: seq<LocalFile>, h: string)
    requires h in HashesOf(page)
    ensures h in PrefetchPage(remote, clock, s, page).md5
    ensures var answer := Ask(remote, clock, s, BatchQuery(HashesOf(page))).0;
            PrefetchPage(remote, clock, s, page).md5[h]
            == if answer.Result? && answer.posts.Some? && LastWith(answer.posts.value, h).Some?
               then PostId(LastWith(answer.posts.value, h).value.id) else Seeded
  {
    SeedCovers(s.md5, HashesOf(page));
    var answer := Ask(remote, clock, s, BatchQuery(HashesOf(page))).0;
    if answer.Result? && answer.posts.Some? {
      RecordHashesEntry(Seed(s.md5, HashesOf(page)), answer.posts.value, h);
    }
  }

  /** A page keeps every hash-cache key and adds the hashes of its files. */
  lemma PrefetchPageKeys(remote: (string, nat) -> Reply, clock: nat -> int, s: CacheState, page: seq<LocalFile>)
    ensures s.md5.Keys <= PrefetchPage(remote, clock, s, page).md5.Keys
    ensures forall f :: f in page && f.isFile ==> f.md5 in PrefetchPage(remote, clock, s, page).md5
  {
    HashesOfCovers(page);
    SeedCovers(s.md5, HashesOf(page));
    var answer := Ask(remote, clock, s, BatchQuery(HashesOf(page))).0;
    if answer.Result? && answer.posts.Some? {
      RecordHashesLastWins(Seed(s.md5, HashesOf(page)), answer.posts.value);
    }
  }

  /** After the pages from `start` on, every hash-cache key is still there and
      every file from `start` on has its hash cached, so getPostIdByMd5 sends
      nothing for it. */
  lemma {:induction false} PrefetchFromCovers(remote: (string, nat) -> Reply, clock: nat -> int, s: CacheState,
                                              files: seq<LocalFile>, start: nat)
    ensures s.md5.Keys <= PrefetchFrom(remote, clock, s, files, start).md5.Keys
    ensures forall i :: start <= i < |files| && files[i].isFile ==> files[i].md5 in PrefetchFrom(remote, clock, s, files, start).md5
    decreases |files| - start
  {
    if start < |files| {
      var end := if start + 100 < |files| then start + 100 else |files|;
      var page := files[start..end];
      var next := PrefetchPage(remote, clock, s, page);
      PrefetchPageKeys(remote, clock, s, page);
      PrefetchFromCovers(remote, clock, next, files, start + 100);
      forall i | start <= i < end && files[i].isFile
        ensures files[i].md5 in next.md5
      {
        assert files[i] == page[i - start];
      }
    }
  }

  /** categorize's lookups and their result: the classification, what
      getPostExists, getPostTags (for the gates, and as used) and getPostRating
      answered, and the state after them. */
  datatype Categorized = Categorized(c: Classification, found: bool, gateTags: Option<seq<Category>>,
                                     tags: Option<seq<Category>>, rating: Option<string>, after: CacheState)

  /** categorize from a state: getPostExists, then getPostTags for the gates
      when they are set, then the rest. */
  function CategorizeFrom(remote: (string, nat) -> Reply, clock: nat -> int, cfg: Config, s: CacheState, id: int): (r: Categorized)
    ensures r.c == Categorize(if r.gateTags.Some? then cfg else NoGates(cfg), r.found, r.tags, r.rating)
    ensures r.found <==> FirstPost(Ask(remote, clock, s, ExistsQuery(id)).0).Some?
    ensures r.gateTags.Some? ==> GatesConfigured(cfg) && r.tags == r.gateTags
  {
    var (existence, s1) := Ask(remote, clock, s, ExistsQuery(id));
    if FirstPost(existence).None? then Categorized(Classification("! Not found", []), false, None, None, None, s1)
    else if GatesConfigured(cfg) then
      var (answer, s2) := Ask(remote, clock, s1, PostQuery(id));
      var gateTags := TagsOf(answer);
      if Rejected(cfg, gateTags) then Categorized(Classification("! Invalid", []), true, gateTags, gateTags, None, s2)
      else RatingStage(remote, clock, cfg, s2, id, gateTags)
    else RatingStage(remote, clock, cfg, s1, id, None)
  }

  /** The rest of categorize once the gates are passed: getPostRating under
      BY_RATING, then the interaction tags. */
  function RatingStage(remote: (string, nat) -> Reply, clock: nat -> int, cfg: Config, s: CacheState, id: int,
                       gateTags: Option<seq<Category>>): (r: Categorized)
    requires gateTags.Some? ==> GatesConfigured(cfg) && !Rejected(cfg, gateTags)
    ensures r.c == Categorize(if gateTags.Some? then cfg else NoGates(cfg), true, r.tags, r.rating)
    ensures r.found && r.gateTags == gateTags && (gateTags.Some? ==> r.tags == gateTags)
  {
    if !cfg.byRating then TagStage(remote, clock, cfg, s, id, gateTags, None)
    else
      var (answer, s3) := Ask(remote, clock, s, PostQuery(id));
      var rating := RatingOf(answer);
      if RatingFolder(rating).None? then Categorized(Classification("! Unknown rating", []), true, gateTags, gateTags, rating, s3)
      else TagStage(remote, clock, cfg, s3, id, gateTags, rating)
  }

  /** The interaction tags: fetched under BY_INTERACTION unless the gates
      already fetched them. */
  function TagStage(remote: (string, nat) -> Reply, clock: nat -> int, cfg: Config, s: CacheState, id: int,
                    gateTags: Option<seq<Category>>, rating: Option<string>): Categorized {
    var (tags, after) :=
      if cfg.byInteraction && gateTags.None? then
        var (answer, s4) := Ask(remote, clock, s, PostQuery(id));
        (TagsOf(answer), s4)
      else (gateTags, s);
    Categorized(Categorize(if gateTags.Some? then cfg else NoGates(cfg), true, tags, rating), true, gateTags, tags, rating, after)
  }

  /** A cached post costs no request: it is classified from its cached tags
      and rating, with the gates switched off when it has no tag map. */
  lemma CategorizeCached(remote: (string, nat) -> Reply, clock: nat -> int, cfg: Config, s: CacheState, id: int)
    requires id in s.posts
    ensures CategorizeFrom(remote, clock, cfg, s, id).after == s
    ensures CategorizeFrom(remote, clock, cfg, s, id).c
         == Categorize(if s.posts[id].tags.Some? then cfg else NoGates(cfg), true, s.posts[id].tags, s.posts[id].rating)
  {
    var p := s.posts[id];
    ExistsQueryCached(remote, clock, s.posts, s.sent, s.lastRequest, id, false);
    PostQueryCached(remote, clock, s.posts, s.sent, s.lastRequest, id, false);
    var hit := (Result(Some([p])), s);
    assert Ask(remote, clock, s, ExistsQuery(id)) == hit;
    assert Ask(remote, clock, s, PostQuery(id)) == hit;
    assert FirstPost(hit.0) == Some(p);
    var gateTags := if GatesConfigured(cfg) then p.tags else None;
    if !Rejected(cfg, gateTags) {
      assert CategorizeFrom(remote, clock, cfg, s, id) == RatingStage(remote, clock, cfg, s, id, gateTags);
      var rating := if cfg.byRating then p.rating else None;
      if !(cfg.byRating && RatingFolder(rating).None?) {
        assert RatingStage(remote, clock, cfg, s, id, gateTags) == TagStage(remote, clock, cfg, s, id, gateTags, rating);
      }
    }
  }

  /** The run's fixed inputs: the settings, whether reverse search is on, the
      source and target directories, the directories that exist and the
      listing of a directory. */
  datatype Settings = Settings(cfg: Config, reverseSearch: bool, source: string, target: string,
                               dirs: set<string>, scan: string -> seq<string>)

  /** One pass of the per-file loop: the step, what categorize gave, the
      outcome, the subdirectory after the alias rewrite, the destination and
      the state after it. */
  datatype Pass = Pass(step: Step, classified: Classification, outcome: Classification, sub: string,
                       to: Option<string>, after: CacheState)

  /** The pass for one file from a state; `reverse` is what the reverse search
      gives for it and `existing` the paths present. */
  function FilePass(remote: (string, nat) -> Reply, clock: nat -> int, st: Settings, reverse: Option<seq<int>>,
                    file: LocalFile, existing: set<string>, s: CacheState): (r: Pass)
    ensures r.step == Resolve(LookupHash(remote, clock, s, file.md5).0, st.reverseSearch, reverse)
    ensures file.md5 in s.md5 ==> r.step == Resolve(FromEntry(s.md5[file.md5]), st.reverseSearch, reverse)
    ensures r.step.Classify? ==>
              r.classified == CategorizeFrom(remote, clock, st.cfg, LookupHash(remote, clock, s, file.md5).1, r.step.id).c
    ensures r.step.Settled? ==> r.classified == Classification("", [])
    ensures r.outcome == Outcome(r.step, r.classified, true)
    ensures file.md5 in s.md5 && r.step.Settled? ==> r.after == s
  {
    var (lookup, s1) := LookupHash(remote, clock, s, file.md5);
    var step := Resolve(lookup, st.reverseSearch, reverse);
    var categorized := if step.Classify? then Some(CategorizeFrom(remote, clock, st.cfg, s1, step.id)) else None;
    var classified := if categorized.Some? then categorized.value.c else Classification("", []);
    var outcome := Outcome(step, classified, true);
    var root := RootFor(outcome.path, st.source, st.target);
    var sub := AlternativeFolderName(outcome.path, root, st.dirs, st.scan(root));
    var to := FinalDestination(root + [DS] + sub + [DS] + file.name, existing, st.source, st.target, {});
    Pass(step, classified, outcome, sub, to, if categorized.Some? then categorized.value.after else s1)
  }

  /** A file whose hash is cached with the id of a cached post costs no
      request and lands where its cached tags and rating say. */
  lemma FilePassCached(remote: (string, nat) -> Reply, clock: nat -> int, st: Settings, reverse: Option<seq<int>>,
                       file: LocalFile, existing: set<string>, s: CacheState)
    requires file.md5 in s.md5 && s.md5[file.md5].PostId? && s.md5[file.md5].id != 0 && s.md5[file.md5].id in s.posts
    ensures FilePass(remote, clock, st, reverse, file, existing, s).after == s
    ensures var p := s.posts[s.md5[file.md5].id];
            FilePass(remote, clock, st, reverse, file, existing, s).outcome
            == Categorize(if p.tags.Some? then st.cfg else NoGates(st.cfg), true, p.tags, p.rating)
  {
    CategorizeCached(remote, clock, st.cfg, s, s.md5[file.md5].id);
  }

  /** A file whose hash holds the prefetch sentinel, with reverse search off,
      costs no request and goes to "! Not found". */
  lemma FilePassSeeded(remote: (string, nat) -> Reply, clock: nat -> int, st: Settings, reverse: Option<seq<int>>,
                       file: LocalFile, existing: set<string>, s: CacheState)
    requires file.md5 in s.md5 && s.md5[file.md5] == Seeded && !st.reverseSearch
    ensures FilePass(remote, clock, st, reverse, file, existing, s).after == s
    ensures FilePass(remote, clock, st, reverse, file, existing, s).outcome == Classification("! Not found", [])
  {
  }

  /** The per-file loop from a state: each entry in turn. */
  function RunFrom(remote: (string, nat) -> Reply, clock: nat -> int, st: Settings, reverse: string -> Option<seq<int>>,
                   files: seq<LocalFile>, present: set<string>, s: CacheState): (seq<Move>, CacheState)
    decreases |files|, 1
  {
    if files == [] then ([], s)
    else RunFile(remote, clock, st, reverse, files[0], files[1..], present, s)
  }

  /** One entry of the loop, then the rest: an entry that is no longer a file
      is skipped; a file is passed, and its move takes its source out of the
      present paths and puts its destination in. */
  function RunFile(remote: (string, nat) -> Reply, clock: nat -> int, st: Settings, reverse: string -> Option<seq<int>>,
                   file: LocalFile, rest: seq<LocalFile>, present: set<string>, s: CacheState): (seq<Move>, CacheState)
    decreases |rest| + 1, 0
  {
    if !file.isFile then RunFrom(remote, clock, st, reverse, rest, present, s)
    else
      var from := st.source + [DS] + file.name;
      var p := FilePass(remote, clock, st, reverse(file.name), file, present, s);
      var (moves, after) := RunFrom(remote, clock, st, reverse, rest,
                                    if p.to.Some? then present - {CollapseSeparators(from)} + {CollapseSeparators(p.to.value)} else present, p.after);
      ([Move(from, p.to)] + moves, after)
  }

  /** The run moves exactly the entries that are files, in scan order. */
  lemma {:induction false} RunFromSources(remote: (string, nat) -> Reply, clock: nat -> int, st: Settings,
                                          reverse: string -> Option<seq<int>>, files: seq<LocalFile>, present: set<string>, s: CacheState)
    ensures Sources(RunFrom(remote, clock, st, reverse, files, present, s).0) == SourcePaths(files, st.source)
    decreases |files|
  {
    if files != [] {
      SourcePathsCons(files[0], files[1..], st.source);
      assert files == [files[0]] + files[1..];
      assert RunFrom(remote, clock, st, reverse, files, present, s)
          == RunFile(remote, clock, st, reverse, files[0], files[1..], present, s);
      if !files[0].isFile {
        RunFromSources(remote, clock, st, reverse, files[1..], present, s);
      } else {
        var from := st.source + [DS] + files[0].name;
        var p := FilePass(remote, clock, st, reverse(files[0].name), files[0], present, s);
        RunFromSources(remote, clock, st, reverse, files[1..],
                       if p.to.Some? then present - {CollapseSeparators(from)} + {CollapseSeparators(p.to.value)} else present, p.after);
      }
    }
  }

  /** RunFrom at an entry that is not a file: nothing happens for it. */
  lemma RunFromSkip(remote: (string, nat) -> Reply, clock: nat -> int, st: Settings, reverse: string -> Option<seq<int>>,
                    files: seq<LocalFile>, i: nat, present: set<string>, s: CacheState)
    requires i < |files| && !files[i].isFile
    ensures RunFrom(remote, clock, st, reverse, files[i..], present, s) == RunFrom(remote, clock, st, reverse, files[i + 1..], present, s)
  {
    var tail := files[i..];
    assert tail != [] && tail[0] == files[i] && tail[1..] == files[i + 1..];
    assert RunFrom(remote, clock, st, reverse, tail, present, s)
        == RunFile(remote, clock, st, reverse, files[i], files[i + 1..], present, s);
  }

  /** RunFrom at an entry that is a file: its move, whose destination is the
      one its pass settles on, then the rest from the state after the pass. */
  lemma RunFromStep(remote: (string, nat) -> Reply, clock: nat -> int, st: Settings, reverse: string -> Option<seq<int>>,
                    files: seq<LocalFile>, i: nat, present: set<string>, s: CacheState, moves: seq<Move>,
                    to: Option<string>, after: CacheState)
    requires i < |files| && files[i].isFile
    requires FilePass(remote, clock, st, reverse(files[i].name), files[i], present, s).to == to
    requires FilePass(remote, clock, st, reverse(files[i].name), files[i], present, s).after == after
    ensures var from := st.source + [DS] + files[i].name;
            var r := RunFrom(remote, clock, st, reverse, files[i..], present, s);
            var next := RunFrom(remote, clock, st, reverse, files[i + 1..], if to.Some? then present - {CollapseSeparators(from)} + {CollapseSeparators(to.value)} else present, after);
            (moves + r.0, r.1) == (moves + [Move(from, to)] + next.0, next.1)
  {
    var from := st.source + [DS] + files[i].name;
    var tail := files[i..];
    assert tail != [] && tail[0] == files[i] && tail[1..] == files[i + 1..];
    var next := RunFrom(remote, clock, st, reverse, files[i + 1..], if to.Some? then present - {CollapseSeparators(from)} + {CollapseSeparators(to.value)} else present, after);
    assert RunFrom(remote, clock, st, reverse, tail, present, s)
        == RunFile(remote, clock, st, reverse, files[i], files[i + 1..], present, s);
    assert RunFile(remote, clock, st, reverse, files[i], files[i + 1..], present, s) == ([Move(from, to)] + next.0, next.1);
    assert moves + ([Move(from, to)] + next.0) == moves + [Move(from, to)] + next.0;
  }

  // ---------------------------------------------------------------------------
  // The caches as one object

  class Catalog {
    var postsCache: map<int, Post>
    var md5Cache: map<string, Md5Entry>
    var lastRequest: int
    /** Every query sent to posts.json, in order. */
    var requests: seq<string>
    /** Whether the caches were filled from posts.json. */
    var loadedDump: bool
    const remote: (string, nat) -> Reply
    const clock: nat -> int

    constructor (remote: (string, nat) -> Reply, clock: nat -> int)
      ensures postsCache == map[] && md5Cache == map[] && lastRequest == 0 && requests == [] && !loadedDump
      ensures this.remote == remote && this.clock == clock
    {
      postsCache := map[];
      md5Cache := map[];
      lastRequest := 0;
      requests := [];
      loadedDump := false;
      this.remote := remote;
      this.clock := clock;
    }

    /** The caches as a value. */
    function State(): CacheState
      reads this
    {
      CacheState(postsCache, md5Cache, requests, lastRequest)
    }

    /** getPosts. */
    method GetPosts(tags: string, isRetry: bool) returns (r: Answer)
      modifies this
      ensures var e := Fetch(remote, clock, old(postsCache), old(requests), old(lastRequest), tags, isRetry);
              r == e.answer && postsCache == e.cache && requests == e.sent && lastRequest == e.lastRequest
      ensures md5Cache == old(md5Cache) && loadedDump == old(loadedDump)
      ensures AppendOnly(old(postsCache), postsCache)
      decreases if isRetry then 0 else 1
    {
      FetchAppendOnly(remote, clock, postsCache, requests, lastRequest, tags, isRetry);
      var normalized := Normalize(tags);
      if Count(normalized, ' ') + 1 > MaxTerms {
        return ApiError(TooManyTerms);
      }
      var terms := Split(normalized, ' ');
      var i := 0;
      while i < |terms|
        invariant 0 <= i <= |terms|
        invariant CachedTerm(postsCache, terms) == CachedTerm(postsCache, terms[i..])
        invariant postsCache == old(postsCache) && requests == old(requests) && lastRequest == old(lastRequest)
        invariant md5Cache == old(md5Cache) && loadedDump == old(loadedDump)
      {
        assert terms[i..][1..] == terms[i + 1..];
        var key := KeyOf(terms[i]);
        if Contains(terms[i], "id:") && key.Some? && key.value in postsCache {
          return Result(Some([postsCache[key.value]]));
        }
        i := i + 1;
      }
      var n := |requests|;
      var reply := remote(tags, n);
      requests := requests + [tags];
      match reply {
        case Decoded(posts) =>
          lastRequest := clock(n);
          if posts.Some? {
            var ps := posts.value;
            var k := 0;
            while k < |ps|
              invariant 0 <= k <= |ps|
              invariant InsertNew(postsCache, ps[k..]) == InsertNew(old(postsCache), ps)
              invariant requests == old(requests) + [tags] && lastRequest == clock(n)
              invariant md5Cache == old(md5Cache) && loadedDump == old(loadedDump)
            {
              assert ps[k..][1..] == ps[k + 1..];
              if ps[k].id !in postsCache {
                postsCache := postsCache[ps[k].id := ps[k]];
              }
              k := k + 1;
            }
          }
          r := Result(posts);
        case NotArray =>
          lastRequest := clock(n);
          r := ApiError(InvalidData);
        case Throttled(message) =>
          if isRetry {
            r := ApiError(ExceptionText(message));
          } else {
            r := GetPosts(tags, true);
          }
        case Failed(message) =>
          r := ApiError(ExceptionText(message));
      }
    }

    /** getPostIdByMd5: a cached entry, the sentinel included, is returned as it
        is; otherwise the id of the first post the hash query returns. */
    method GetPostIdByMd5(md5: string) returns (r: IdLookup)
      modifies this
      ensures md5 in old(md5Cache) ==> r == FromEntry(old(md5Cache)[md5])
      ensures md5 in old(md5Cache) ==> postsCache == old(postsCache) && requests == old(requests) && lastRequest == old(lastRequest)
      ensures md5 !in old(md5Cache) ==>
                var e := Fetch(remote, clock, old(postsCache), old(requests), old(lastRequest), Md5Query(md5), false);
                && r == (if FirstPost(e.answer).Some? then Id(FirstPost(e.answer).value.id) else Missing)
                && postsCache == e.cache && requests == e.sent && lastRequest == e.lastRequest
      ensures (r, State()) == LookupHash(remote, clock, old(State()), md5)
      ensures md5Cache == old(md5Cache) && loadedDump == old(loadedDump)
      ensures AppendOnly(old(postsCache), postsCache)
    {
      if md5 in md5Cache {
        return FromEntry(md5Cache[md5]);
      }
      var answer := GetPosts(Md5Query(md5), false);
      if answer.Result? && answer.posts.Some? && answer.posts.value != [] {
        r := Id(answer.posts.value[0].id);
      } else {
        r := Missing;
      }
    }

    /** batchMd5: one query for all the hashes; on a posts list, each post's hash
        is set to its id, and the result is true; otherwise false. */
    method BatchMd5(md5s: seq<string>) returns (ok: bool)
      modifies this
      ensures var e := Fetch(remote, clock, old(postsCache), old(requests), old(lastRequest), BatchQuery(md5s), false);
              && postsCache == e.cache && requests == e.sent && lastRequest == e.lastRequest
              && (ok <==> e.answer.Result? && e.answer.posts.Some?)
              && md5Cache == (if ok then RecordHashes(old(md5Cache), e.answer.posts.value) else old(md5Cache))
      ensures old(md5Cache).Keys <= md5Cache.Keys
      ensures AppendOnly(old(postsCache), postsCache)
      ensures |requests| <= |old(requests)| + 2
      ensures loadedDump == old(loadedDump)
    {
      FetchAppendOnly(remote, clock, postsCache, requests, lastRequest, BatchQuery(md5s), false);
      FetchRequests(remote, clock, postsCache, requests, lastRequest, BatchQuery(md5s), false);
      var answer := GetPosts(BatchQuery(md5s), false);
      label called:
      if answer.Result? && answer.posts.Some? {
        var ps := answer.posts.value;
        var k := 0;
        while k < |ps|
          invariant 0 <= k <= |ps|
          invariant RecordHashes(md5Cache, ps[k..]) == RecordHashes(old(md5Cache), ps)
          invariant postsCache == old@called(postsCache) && requests == old@called(requests)
          invariant lastRequest == old@called(lastRequest) && loadedDump == old(loadedDump)
        {
          assert ps[k..][1..] == ps[k + 1..];
          md5Cache := md5Cache[ps[k].md5 := PostId(ps[k].id)];
          k := k + 1;
        }
        RecordHashesLastWins(old(md5Cache), ps);
        ok := true;
      } else {
        ok := false;
      }
    }

    /** Loading posts.json: the post cache becomes the dump, and each post's hash
        is indexed unless already present. */
    method LoadDump(dump: Dump)
      modifies this
      ensures postsCache == DumpMap(dump)
      ensures md5Cache == IndexFirst(old(md5Cache), DumpPosts(dump))
      ensures loadedDump
      ensures requests == old(requests) && lastRequest == old(lastRequest)
    {
      postsCache := DumpMap(dump);
      var posts := DumpPosts(dump);
      var k := 0;
      while k < |posts|
        invariant 0 <= k <= |posts|
        invariant IndexFirst(md5Cache, posts[k..]) == IndexFirst(old(md5Cache), posts)
        invariant postsCache == DumpMap(dump) && requests == old(requests) && lastRequest == old(lastRequest)
      {
        assert posts[k..][1..] == posts[k + 1..];
        var p := posts[k];
        if p.md5 !in md5Cache {
          md5Cache := md5Cache[p.md5 := PostId(p.id)];
        }
        k := k + 1;
      }
      loadedDump := true;
    }

    /** getPostExists: always asks getPosts, which answers from the cache when
        it can; true when the first returned post has an id. */
    method PostExists(id: int) returns (found: bool)
      modifies this
      ensures var e := Fetch(remote, clock, old(postsCache), old(requests), old(lastRequest), ExistsQuery(id), false);
              && (found <==> FirstPost(e.answer).Some?)
              && postsCache == e.cache && requests == e.sent && lastRequest == e.lastRequest
      ensures State() == Ask(remote, clock, old(State()), ExistsQuery(id)).1
      ensures md5Cache == old(md5Cache) && loadedDump == old(loadedDump)
      ensures AppendOnly(old(postsCache), postsCache)
    {
      var answer := GetPosts(ExistsQuery(id), false);
      found := answer.Result? && answer.posts.Some? && answer.posts.value != [];
    }

    /** getPostRating: the first returned post's rating, or false (None). */
    method PostRating(id: int) returns (rating: Option<string>)
      modifies this
      ensures var e := Fetch(remote, clock, old(postsCache), old(requests), old(lastRequest), PostQuery(id), false);
              && rating == RatingOf(e.answer)
              && postsCache == e.cache && requests == e.sent && lastRequest == e.lastRequest
      ensures State() == Ask(remote, clock, old(State()), PostQuery(id)).1
      ensures md5Cache == old(md5Cache) && loadedDump == old(loadedDump)
      ensures AppendOnly(old(postsCache), postsCache)
    {
      var answer := GetPosts(PostQuery(id), false);
      if answer.Result? && answer.posts.Some? && answer.posts.value != [] {
        rating := answer.posts.value[0].rating;
      } else {
        rating := None;
      }
    }

    /** getPostTags: the first returned post's tag map, or false (None). */
    method PostTags(id: int) returns (tags: Option<seq<Category>>)
      modifies this
      ensures var e := Fetch(remote, clock, old(postsCache), old(requests), old(lastRequest), PostQuery(id), false);
              && tags == TagsOf(e.answer)
              && postsCache == e.cache && requests == e.sent && lastRequest == e.lastRequest
      ensures State() == Ask(remote, clock, old(State()), PostQuery(id)).1
      ensures md5Cache == old(md5Cache) && loadedDump == old(loadedDump)
      ensures AppendOnly(old(postsCache), postsCache)
    {
      var answer := GetPosts(PostQuery(id), false);
      if answer.Result? && answer.posts.Some? && answer.posts.value != [] {
        tags := answer.posts.value[0].tags;
      } else {
        tags := None;
      }
    }

    /** One page of the prefetch: every hash of a file that is still a file is
        seeded with the sentinel and collected, in order. */
    method SeedPage(page: seq<LocalFile>) returns (md5s: seq<string>)
      modifies this
      ensures md5s == HashesOf(page)
      ensures md5Cache == Seed(old(md5Cache), md5s)
      ensures forall f :: f in page && f.isFile ==> f.md5 in md5Cache
      ensures old(md5Cache).Keys <= md5Cache.Keys
      ensures postsCache == old(postsCache) && requests == old(requests)
      ensures lastRequest == old(lastRequest) && loadedDump == old(loadedDump)
    {
      md5s := [];
      var k := 0;
      while k < |page|
        invariant 0 <= k <= |page|
        invariant md5s == HashesOf(page[..k])
        invariant md5Cache == Seed(old(md5Cache), md5s)
        invariant postsCache == old(postsCache) && requests == old(requests)
        invariant lastRequest == old(lastRequest) && loadedDump == old(loadedDump)
      {
        assert page[..k + 1] == page[..k] + [page[k]];
        HashesOfAppend(page[..k], page[k]);
        if page[k].isFile {
          SeedAppend(old(md5Cache), md5s, page[k].md5);
          md5Cache := md5Cache[page[k].md5 := Seeded];
          md5s := md5s + [page[k].md5];
        }
        k := k + 1;
      }
      assert page[..k] == page;
      HashesOfCovers(page);
      SeedCovers(old(md5Cache), md5s);
    }

    /** The batch prefetch: with more than one file and no dump loaded, the files
        are taken in pages of 100; every hash of a page is seeded with the
        sentinel and then the page is asked about in one batch. Afterwards every
        file's hash is in the hash cache, so getPostIdByMd5 sends nothing for it. */
    method Prefetch(files: seq<LocalFile>)
      modifies this
      ensures State() == PrefetchState(remote, clock, old(State()), files, old(loadedDump))
      ensures |files| > 1 && !old(loadedDump) ==> forall f :: f in files && f.isFile ==> f.md5 in md5Cache
      ensures old(md5Cache).Keys <= md5Cache.Keys
      ensures AppendOnly(old(postsCache), postsCache)
      ensures |requests| <= |old(requests)| + 2 * Pages(|files|)
      ensures loadedDump == old(loadedDump)
    {
      if !(|files| > 1 && !loadedDump) {
        return;
      }
      ghost var final := PrefetchFrom(remote, clock, State(), files, 0);
      PrefetchFromCovers(remote, clock, State(), files, 0);
      var page := 1;
      while true
        invariant page >= 1 && 100 * (page - 1) <= |files| + 99
        invariant PrefetchFrom(remote, clock, State(), files, 100 * (page - 1)) == final
        invariant AppendOnly(old(postsCache), postsCache)
        invariant |requests| <= |old(requests)| + 2 * (page - 1)
        invariant page - 1 <= Pages(|files|)
        invariant loadedDump == old(loadedDump)
        decreases |files| + 100 - 100 * (page - 1)
      {
        var start := 100 * (page - 1);
        var newFiles := if start < |files| then files[start..if start + 100 < |files| then start + 100 else |files|] else [];
        if |newFiles| == 0 {
          break;
        }
        ghost var before := State();
        page := page + 1;
        var md5s := SeedPage(newFiles);
        var ok := BatchMd5(md5s);
        assert State() == PrefetchPage(remote, clock, before, newFiles);
      }
      forall f | f in files && f.isFile
        ensures f.md5 in md5Cache
      {
        var i :| 0 <= i < |files| && files[i] == f;
      }
    }

    /** categorize with its three lookups: the post must exist; its tags are
        fetched before the rating when a required-tag gate is set, and after it
        for the interaction folder when they are not held yet; the rating is
        fetched under BY_RATING. When the gate fetch fails the gates are skipped,
        which is classifying with the gates switched off. */
    method CategorizePost(cfg: Config, id: int)
      returns (c: Classification, found: bool, gateTags: Option<seq<Category>>, tags: Option<seq<Category>>, rating: Option<string>)
      modifies this
      ensures Categorized(c, found, gateTags, tags, rating, State()) == CategorizeFrom(remote, clock, cfg, old(State()), id)
      ensures c == Categorize(if gateTags.Some? then cfg else NoGates(cfg), found, tags, rating)
      ensures gateTags.Some? ==> tags == gateTags
      ensures gateTags.Some? ==> GatesConfigured(cfg)
      ensures md5Cache == old(md5Cache) && loadedDump == old(loadedDump)
      ensures AppendOnly(old(postsCache), postsCache)
    {
      gateTags, tags, rating := None, None, None;
      found := PostExists(id);
      if !found {
        return Classification("! Not found", []), found, gateTags, tags, rating;
      }
      if GatesConfigured(cfg) {
        gateTags := PostTags(id);
        tags := gateTags;
        if Rejected(cfg, tags) {
          return Classification("! Invalid", []), found, gateTags, tags, rating;
        }
      }
      ghost var gated := State();
      assert CategorizeFrom(remote, clock, cfg, old(State()), id) == RatingStage(remote, clock, cfg, gated, id, gateTags);
      if cfg.byRating {
        rating := PostRating(id);
        if RatingFolder(rating).None? {
          return Classification("! Unknown rating", []), found, gateTags, tags, rating;
        }
      }
      ghost var rated := State();
      assert RatingStage(remote, clock, cfg, gated, id, gateTags) == TagStage(remote, clock, cfg, rated, id, gateTags, rating);
      if cfg.byInteraction && gateTags.None? {
        tags := PostTags(id);
      }
      c := Categorize(if gateTags.Some? then cfg else NoGates(cfg), found, tags, rating);
    }

    /** One pass of the per-file loop for a file that is a file: the hash
        lookup, the reverse search when that misses, categorize when one post
        is identified, the "! Not found" fallback, the root, the alias rewrite
        and the destination safeRename settles on. `reverse` is what the
        reverse search gives for this file; `scan` lists a root directory. */
    method ProcessFile(cfg: Config, reverseSearch: bool, reverse: Option<seq<int>>, file: LocalFile,
                       source: string, target: string, dirs: set<string>, scan: string -> seq<string>, existing: set<string>)
      returns (step: Step, classified: Classification, outcome: Classification, sub: string, to: Option<string>)
      modifies this
      ensures Pass(step, classified, outcome, sub, to, State())
           == FilePass(remote, clock, Settings(cfg, reverseSearch, source, target, dirs, scan), reverse, file, existing, old(State()))
      ensures md5Cache == old(md5Cache) && loadedDump == old(loadedDump)
      ensures AppendOnly(old(postsCache), postsCache)
    {
      var lookup := GetPostIdByMd5(file.md5);
      ghost var looked := State();
      step := Resolve(lookup, reverseSearch, reverse);
      classified := Classification("", []);
      if step.Classify? {
        var found, gateTags, tags, rating;
        classified, found, gateTags, tags, rating := CategorizePost(cfg, step.id);
      }
      outcome := Outcome(step, classified, true);
      var root := RootFor(outcome.path, source, target);
      sub := AlternativeFolderName(outcome.path, root, dirs, scan(root));
      to := FinalDestination(root + [DS] + sub + [DS] + file.name, existing, source, target, {});
    }

    /** The run over the scanned files: the prefetch, then the per-file loop. */
    method Run(cfg: Config, reverseSearch: bool, reverse: string -> Option<seq<int>>, files: seq<LocalFile>,
               source: string, target: string, dirs: set<string>, scan: string -> seq<string>, existing: set<string>)
      returns (moves: seq<Move>)
      modifies this
      ensures (moves, State()) == RunFrom(remote, clock, Settings(cfg, reverseSearch, source, target, dirs, scan), reverse,
                                          files, existing, PrefetchState(remote, clock, old(State()), files, old(loadedDump)))
      ensures Sources(moves) == SourcePaths(files, source)
      ensures old(md5Cache).Keys <= md5Cache.Keys
      ensures AppendOnly(old(postsCache), postsCache)
    {
      Prefetch(files);
      moves := MoveFiles(cfg, reverseSearch, reverse, files, source, target, dirs, scan, existing);
    }

    /** One entry of the loop: an entry that is no longer a file is skipped;
        a file is passed and its move appended, with the present paths updated
        for the next entry. */
    method MoveFile(cfg: Config, reverseSearch: bool, reverse: string -> Option<seq<int>>, files: seq<LocalFile>, i: nat,
                    source: string, target: string, dirs: set<string>, scan: string -> seq<string>,
                    moves: seq<Move>, present: set<string>)
      returns (moves': seq<Move>, next: set<string>)
      requires i < |files|
      modifies this
      ensures var st := Settings(cfg, reverseSearch, source, target, dirs, scan);
              var r := RunFrom(remote, clock, st, reverse, files[i..], present, old(State()));
              var rest := RunFrom(remote, clock, st, reverse, files[i + 1..], next, State());
              (moves + r.0, r.1) == (moves' + rest.0, rest.1)
      ensures md5Cache == old(md5Cache) && loadedDump == old(loadedDump)
      ensures AppendOnly(old(postsCache), postsCache)
    {
      var st := Settings(cfg, reverseSearch, source, target, dirs, scan);
      var file := files[i];
      if !file.isFile {
        RunFromSkip(remote, clock, st, reverse, files, i, present, State());
        moves', next := moves, present;
        return;
      }
      var from := source + [DS] + file.name;
      ghost var s := State();
      var step, classified, outcome, sub, to := ProcessFile(cfg, reverseSearch, reverse(file.name), file,
                                                             source, target, dirs, scan, present);
      RunFromStep(remote, clock, st, reverse, files, i, present, s, moves, to, State());
      moves' := moves + [Move(from, to)];
      next := if to.Some? then present - {CollapseSeparators(from)} + {CollapseSeparators(to.value)} else present;
    }

    /** The per-file loop: each entry that is still a file in turn. A move takes
        the file out of the present paths and puts its destination in. */
    method MoveFiles(cfg: Config, reverseSearch: bool, reverse: string -> Option<seq<int>>, files: seq<LocalFile>,
                     source: string, target: string, dirs: set<string>, scan: string -> seq<string>, existing: set<string>)
      returns (moves: seq<Move>)
      modifies this
      ensures (moves, State()) == RunFrom(remote, clock, Settings(cfg, reverseSearch, source, target, dirs, scan), reverse,
                                          files, existing, old(State()))
      ensures Sources(moves) == SourcePaths(files, source)
      ensures md5Cache == old(md5Cache) && loadedDump == old(loadedDump)
      ensures AppendOnly(old(postsCache), postsCache)
    {
      var st := Settings(cfg, reverseSearch, source, target, dirs, scan);
      ghost var total := RunFrom(remote, clock, st, reverse, files, existing, State());
      RunFromSources(remote, clock, st, reverse, files, existing, State());
      moves := [];
      var present := existing;
      var i := 0;
      assert files[i..] == files;
      assert moves + total.0 == total.0;
      assert RunFrom(remote, clock, st, reverse, files[i..], present, State()) == total;
      while i < |files|
        invariant 0 <= i <= |files|
        invariant var r := RunFrom(remote, clock, st, reverse, files[i..], present, State()); (moves + r.0, r.1) == total
        invariant md5Cache == old(md5Cache) && loadedDump == old(loadedDump)
        invariant AppendOnly(old(postsCache), postsCache)
      {
        moves, present := MoveFile(cfg, reverseSearch, reverse, files, i, source, target, dirs, scan, moves, present);
        i := i + 1;
      }
      assert files[i..] == [];
      assert moves + [] == moves;
    }
  }
}
