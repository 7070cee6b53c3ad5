/** The change-detection core of `main` in notice_watcher.py: for each board, decide
    which listed posts are new against the persisted per-board seen list, update
    that list with bounded growth, and after all boards decide whether to notify.

    Loading and saving state.json, the HTTP fetch and the mail transport are not
    modelled: the loaded state and the scraped listings are inputs, the state
    handed to `save_state` and whether `send_email` is called are outputs. */
module Watcher {
  import opened Seqs
  import opened Articles

  /** Board name to the identities already seen on it, as in state.json. */
  type State = map<string, seq<string>>

  /** How many identities a board is seeded with on first sight. */
  const SEED_COUNT := 300
  /** At most this many new posts are reported per board and run. */
  const NEW_POST_CAP := 50
  /** At most this many identities are kept per board. */
  const SEEN_CAP := 500

  datatype StepResult = StepResult(state: State, posts: seq<Article>)

  /** `set(state.get(name, []))` */
  function Seen(state: State, name: string): set<string> {
    if name in state then Elems(state[name]) else {}
  }

  /** A board met for the first time while the backlog is not wanted. */
  predicate Seeds(state: State, name: string, sendBacklog: bool) {
    name !in state && !sendBacklog
  }

  /** The listed posts whose identity has not been seen, in listing order. */
  function Unseen(articles: seq<Article>, seen: set<string>): (r: seq<Article>)
    ensures forall a :: a in r <==> a in articles && a.id !in seen
  {
    if articles == [] then []
    else
      var n := |articles| - 1;
      var u := Unseen(articles[..n], seen);
      assert articles == articles[..n] + [articles[n]];
      if articles[n].id in seen then u else u + [articles[n]]
  }

  /** `new_posts` for a board: its unseen posts cut to the first 50, then reversed
      (notice_watcher.py:171-177). */
  function Report(articles: seq<Article>, seen: set<string>): seq<Article> {
    Reversed(Take(Unseen(articles, seen), NEW_POST_CAP))
  }

  /** One pass of the board loop in `main` (notice_watcher.py:160-181). `seenList`
      is `list(seen)`: Python's set gives no order, so the caller supplies the one
      that happened. */
  function Step(state: State, name: string, articles: seq<Article>, sendBacklog: bool,
                seenList: seq<string>): (r: StepResult)
    ensures name in r.state
    ensures forall other :: other != name ==>
      (other in r.state <==> other in state) && (other in state ==> r.state[other] == state[other])
  {
    var ids := Ids(articles);
    if Seeds(state, name, sendBacklog) then
      StepResult(state[name := Take(ids, SEED_COUNT)], [])
    else
      var merged := Unique(ids + seenList);
      StepResult(state[name := Take(merged, SEEN_CAP)], Report(articles, Seen(state, name)))
  }

  // ---------------------------------------------------------------------------
  // Properties of one step

  /** First sighting without backlog: the board is seeded with the first 300
      identities and nothing is reported (notice_watcher.py:165-168). */
  lemma FirstSightingSeeds(state: State, name: string, articles: seq<Article>, seenList: seq<string>)
    requires name !in state
    ensures Step(state, name, articles, false, seenList).posts == []
    ensures Step(state, name, articles, false, seenList).state[name] == Take(Ids(articles), SEED_COUNT)
    ensures |Ids(articles)| <= SEED_COUNT ==> Step(state, name, articles, false, seenList).state[name] == Ids(articles)
  {
  }

  lemma UnseenSnoc(articles: seq<Article>, x: Article, seen: set<string>)
    ensures Unseen(articles + [x], seen) == if x.id in seen then Unseen(articles, seen) else Unseen(articles, seen) + [x]
  {
    assert (articles + [x])[..|articles|] == articles;
  }

  /** Filtering a concatenation filters each part. */
  lemma {:induction false} UnseenAppend(a: seq<Article>, b: seq<Article>, seen: set<string>)
    ensures Unseen(a + b, seen) == Unseen(a, seen) + Unseen(b, seen)
    decreases |b|
  {
    if b == [] {
      assert a + b == a;
    } else {
      var b' := b[..|b| - 1];
      var x := b[|b| - 1];
      AppendSnoc(a, b);
      assert b == b' + [x];
      UnseenAppend(a, b', seen);
      UnseenSnoc(a + b', x, seen);
      UnseenSnoc(b', x, seen);
    }
  }

  lemma UnseenPrefix(articles: seq<Article>, seen: set<string>, i: nat)
    requires i <= |articles|
    ensures |Unseen(articles[..i], seen)| <= |Unseen(articles, seen)|
    ensures Unseen(articles[..i], seen) == Unseen(articles, seen)[..|Unseen(articles[..i], seen)|]
  {
    assert articles == articles[..i] + articles[i..];
    UnseenAppend(articles[..i], articles[i..], seen);
  }

  lemma {:induction false} UnseenNone(articles: seq<Article>, seen: set<string>)
    requires forall a :: a in articles ==> a.id in seen
    ensures Unseen(articles, seen) == []
  {
    if articles != [] {
      UnseenNone(articles[..|articles| - 1], seen);
    }
  }

  /** The unseen post at listing position `i` sits in the unseen list right after
      the unseen posts listed before it. */
  lemma UnseenAt(articles: seq<Article>, seen: set<string>, i: nat)
    requires i < |articles| && articles[i].id !in seen
    ensures |Unseen(articles[..i], seen)| < |Unseen(articles, seen)|
    ensures Unseen(articles, seen)[|Unseen(articles[..i], seen)|] == articles[i]
  {
    var p := articles[..i + 1];
    var m := |Unseen(articles[..i], seen)|;
    assert p[..i] == articles[..i];
    assert Unseen(p, seen) == Unseen(articles[..i], seen) + [articles[i]];
    UnseenPrefix(articles, seen, i + 1);
    assert Unseen(p, seen)[m] == articles[i];
  }

  lemma ReportSound(articles: seq<Article>, seen: set<string>)
    ensures forall a :: a in Report(articles, seen) ==> a in articles && a.id !in seen
  {
    var u := Unseen(articles, seen);
    var kept := Take(u, NEW_POST_CAP);
    var posts := Report(articles, seen);
    forall a | a in posts
      ensures a in articles && a.id !in seen
    {
      var k :| 0 <= k < |posts| && posts[k] == a;
      assert a == u[|kept| - 1 - k];
    }
  }

  lemma ReportComplete(articles: seq<Article>, seen: set<string>, i: nat)
    requires i < |articles| && articles[i].id !in seen
    requires |Unseen(articles[..i], seen)| < NEW_POST_CAP
    ensures articles[i] in Report(articles, seen)
  {
    var kept := Take(Unseen(articles, seen), NEW_POST_CAP);
    UnseenAt(articles, seen, i);
    var m := |Unseen(articles[..i], seen)|;
    assert kept[m] == articles[i];
    assert Report(articles, seen)[|kept| - 1 - m] == articles[i];
  }

  /** The report is as long as the unseen list, up to 50. */
  lemma ReportLength(articles: seq<Article>, seen: set<string>)
    ensures |Report(articles, seen)| == if |Unseen(articles, seen)| <= NEW_POST_CAP then |Unseen(articles, seen)| else NEW_POST_CAP
  {
  }

  /** The report is the capped unseen list back to front. */
  lemma ReportOrder(articles: seq<Article>, seen: set<string>)
    ensures forall k :: 0 <= k < |Report(articles, seen)| ==>
      Report(articles, seen)[k] == Unseen(articles, seen)[|Report(articles, seen)| - 1 - k]
  {
    var u := Unseen(articles, seen);
    var kept := Take(u, NEW_POST_CAP);
    assert forall k :: 0 <= k < |kept| ==> kept[k] == u[k];
  }

  /** Classification (notice_watcher.py:170-177): every reported post is listed and
      unseen; there are as many as there are unseen posts, up to 50; the unseen
      posts listed first, the 50 newest, are the ones reported; the report runs
      oldest first. */
  lemma NewPostsSpec(articles: seq<Article>, seen: set<string>)
    ensures var posts := Report(articles, seen);
      && (forall a :: a in posts ==> a in articles && a.id !in seen)
      && |posts| == (if |Unseen(articles, seen)| <= NEW_POST_CAP then |Unseen(articles, seen)| else NEW_POST_CAP)
      && (forall i :: 0 <= i < |articles| && articles[i].id !in seen && |Unseen(articles[..i], seen)| < NEW_POST_CAP ==>
            articles[i] in posts)
      && (forall k :: 0 <= k < |posts| ==> posts[k] == Unseen(articles, seen)[|posts| - 1 - k])
  {
    ReportSound(articles, seen);
    ReportLength(articles, seen);
    ReportOrder(articles, seen);
    forall i | 0 <= i < |articles| && articles[i].id !in seen && |Unseen(articles[..i], seen)| < NEW_POST_CAP
      ensures articles[i] in Report(articles, seen)
    {
      ReportComplete(articles, seen, i);
    }
  }

  /** State update (notice_watcher.py:180-181): the new seen list is the current
      identities followed by the previously seen ones that are not current, in
      whatever order the set gave, cut to 500; it has no duplicates and draws only
      on current and seen identities. */
  lemma MergeShape(state: State, name: string, articles: seq<Article>, sendBacklog: bool,
                   seenList: seq<string>)
    requires !Seeds(state, name, sendBacklog)
    requires Arrangement(seenList, Seen(state, name))
    ensures var ids, e := Ids(articles), Step(state, name, articles, sendBacklog, seenList).state[name];
      && e == Take(Unique(ids) + Without(seenList, ids), SEEN_CAP)
      && NoDup(e) && |e| <= SEEN_CAP
      && (forall x :: x in e ==> x in ids || x in Seen(state, name))
      && (forall k :: |Unique(ids)| <= k < |e| ==> e[k] in Seen(state, name) && e[k] !in ids)
  {
    var ids := Ids(articles);
    var u := Unique(ids);
    var w := Without(seenList, ids);
    var e := Step(state, name, articles, sendBacklog, seenList).state[name];
    UniqueAppendDistinct(ids, seenList);
    assert e == Take(u + w, SEEN_CAP);
    forall k | |u| <= k < |e|
      ensures e[k] in Seen(state, name) && e[k] !in ids
    {
      assert e[k] == w[k - |u|];
      assert e[k] in Elems(seenList);
    }
    forall x | x in e
      ensures x in ids || x in Seen(state, name)
    {
      var k :| 0 <= k < |e| && e[k] == x;
      if k < |u| {
        assert x == u[k];
      }
    }
  }

  /** The current identities lead the new seen list, and with at most 500 of them
      every one is kept, the ones cut by the 50-post cap included
      (notice_watcher.py:174, 180-181). */
  lemma MergeKeepsCurrent(state: State, name: string, articles: seq<Article>, sendBacklog: bool,
                          seenList: seq<string>)
    requires !Seeds(state, name, sendBacklog)
    ensures var ids, e := Ids(articles), Step(state, name, articles, sendBacklog, seenList).state[name];
      && (NoDup(ids) ==> Take(e, |ids|) == Take(ids, SEEN_CAP))
      && (|ids| <= SEEN_CAP ==> forall x :: x in ids ==> x in e)
  {
    var ids := Ids(articles);
    var u := Unique(ids);
    var e := Step(state, name, articles, sendBacklog, seenList).state[name];
    assert e == Take(Unique(ids + seenList), SEEN_CAP);
    UniqueExtends(ids, seenList);
    if NoDup(ids) {
      UniqueOfDistinct(ids);
    }
    if |ids| <= SEEN_CAP {
      assert e[..|u|] == u;
      forall x | x in ids
        ensures x in e
      {
        assert x in e[..|u|];
      }
    }
  }

  /** Nothing is evicted while everything fits: with at most 500 current and seen
      identities together, the new list holds exactly their union. */
  lemma MergeKeepsAll(state: State, name: string, articles: seq<Article>, sendBacklog: bool,
                      seenList: seq<string>)
    requires !Seeds(state, name, sendBacklog)
    requires Arrangement(seenList, Seen(state, name))
    requires |Ids(articles)| + |Seen(state, name)| <= SEEN_CAP
    ensures Elems(Step(state, name, articles, sendBacklog, seenList).state[name]) == Elems(Ids(articles)) + Seen(state, name)
  {
    var ids := Ids(articles);
    var all := Unique(ids + seenList);
    DistinctCardinality(seenList);
    assert Step(state, name, articles, sendBacklog, seenList).state[name] == all;
    forall x | x in Elems(ids) + Seen(state, name)
      ensures x in all
    {
      if x in Elems(ids) {
        var i :| 0 <= i < |ids| && ids[i] == x;
        assert (ids + seenList)[i] == x;
      } else {
        assert x in Elems(seenList);
        var i :| 0 <= i < |seenList| && seenList[i] == x;
        assert (ids + seenList)[|ids| + i] == x;
      }
    }
    forall x | x in all
      ensures x in Elems(ids) + Seen(state, name)
    {
      var k :| 0 <= k < |all| && all[k] == x;
      assert x in ids + seenList;
    }
  }

  /** Running the step again on the same listing reports nothing: every listed
      identity is now seen, including the posts cut by the 50-post cap. It holds
      as long as the list kept them all: at most 300 identities on a seeding run,
      at most 500 otherwise (notice_watcher.py:166, 171, 180-181). */
  lemma StepIdempotent(state: State, name: string, articles: seq<Article>, sendBacklog: bool,
                       seenList: seq<string>, nextList: seq<string>)
    requires |Ids(articles)| <= (if Seeds(state, name, sendBacklog) then SEED_COUNT else SEEN_CAP)
    ensures var r := Step(state, name, articles, sendBacklog, seenList);
      && (forall a :: a in articles ==> a.id in r.state[name])
      && Step(r.state, name, articles, sendBacklog, nextList).posts == []
  {
    var r := Step(state, name, articles, sendBacklog, seenList);
    var ids := Ids(articles);
    var e := r.state[name];
    forall a | a in articles
      ensures a.id in e
    {
      var i :| 0 <= i < |articles| && articles[i] == a;
      assert ids[i] == a.id;
      if !Seeds(state, name, sendBacklog) {
        var u := Unique(ids);
        assert a.id in u;
        var k :| 0 <= k < |u| && u[k] == a.id;
        UniqueExtends(ids, seenList);
        assert e[k] == Unique(ids + seenList)[k] == a.id;
      }
    }
    assert Seen(r.state, name) == Elems(e);
    UnseenNone(articles, Seen(r.state, name));
  }

  lemma {:induction false} UnseenAll(articles: seq<Article>, seen: set<string>)
    requires forall a :: a in articles ==> a.id !in seen
    ensures Unseen(articles, seen) == articles
  {
    if articles != [] {
      var n := |articles| - 1;
      UnseenAll(articles[..n], seen);
      assert articles == articles[..n] + [articles[n]];
    }
  }

  /** A flood of more than 50 new posts: 50 are reported, and the rest are never
      reported, because every one of them enters the seen list at once. */
  lemma CappedPostsNeverResurface(state: State, name: string, articles: seq<Article>, sendBacklog: bool,
                                  seenList: seq<string>, nextList: seq<string>)
    requires !Seeds(state, name, sendBacklog)
    requires forall a :: a in articles ==> a.id !in Seen(state, name)
    requires NEW_POST_CAP < |articles| <= SEEN_CAP
    ensures var r := Step(state, name, articles, sendBacklog, seenList);
      && |r.posts| == NEW_POST_CAP
      && Step(r.state, name, articles, sendBacklog, nextList).posts == []
  {
    UnseenAll(articles, Seen(state, name));
    NewPostsSpec(articles, Seen(state, name));
    StepIdempotent(state, name, articles, sendBacklog, seenList, nextList);
  }

  /** A board met for the first time with the backlog wanted: the whole listing,
      up to 50 posts from its head, is reported, oldest first. */
  lemma BacklogReportsListing(state: State, name: string, articles: seq<Article>, seenList: seq<string>)
    requires name !in state
    ensures var posts := Step(state, name, articles, true, seenList).posts;
      && |posts| == (if |articles| <= NEW_POST_CAP then |articles| else NEW_POST_CAP)
      && forall k :: 0 <= k < |posts| ==> posts[k] == articles[|posts| - 1 - k]
  {
    UnseenAll(articles, Seen(state, name));
    NewPostsSpec(articles, Seen(state, name));
  }

  /** Of ["102", "101", "100", "99"], only the first two are new against
      {"100", "99", "98"}. */
  lemma ExampleUnseen(articles: seq<Article>, seen: set<string>)
    requires Ids(articles) == ["102", "101", "100", "99"]
    requires seen == {"100", "99", "98"}
    ensures Unseen(articles, seen) == [articles[0], articles[1]]
  {
    assert articles[..1][..0] == [];
    assert Unseen(articles[..1], seen) == [articles[0]];
    assert articles[..2][..1] == articles[..1];
    assert Unseen(articles[..2], seen) == [articles[0], articles[1]];
    assert articles[..3][..2] == articles[..2];
    assert Unseen(articles[..3], seen) == [articles[0], articles[1]];
    assert articles[..4][..3] == articles[..3];
    assert articles[..4] == articles;
  }

  /** The only seen entry not listed again is "98". */
  lemma ExampleLeftover(ids: seq<string>, seenList: seq<string>)
    requires ids == ["102", "101", "100", "99"]
    requires Arrangement(seenList, {"100", "99", "98"})
    ensures Without(seenList, ids) == ["98"]
  {
    var w := Without(seenList, ids);
    assert Elems(w) == {"98"} by {
      forall x | x in Elems(w)
        ensures x == "98"
      {
        assert x in Elems(seenList);
      }
      assert "98" in Elems(seenList);
      var k :| 0 <= k < |seenList| && seenList[k] == "98";
    }
    SingletonArrangement(w, "98");
  }

  lemma ExampleMerge(ids: seq<string>, seenList: seq<string>)
    requires ids == ["102", "101", "100", "99"]
    requires Arrangement(seenList, {"100", "99", "98"})
    ensures Take(Unique(ids + seenList), SEEN_CAP) == ["102", "101", "100", "99", "98"]
  {
    UniqueAppendDistinct(ids, seenList);
    UniqueOfDistinct(ids);
    ExampleLeftover(ids, seenList);
    assert Unique(ids + seenList) == ids + ["98"];
  }

  lemma ExampleSeen(state: State, name: string)
    requires name in state && state[name] == ["100", "99", "98"]
    ensures Seen(state, name) == {"100", "99", "98"}
  {
    assert Elems(["100", "99", "98"]) == {"100", "99", "98"};
  }

  lemma ExamplePosts(state: State, name: string, articles: seq<Article>, sendBacklog: bool,
                     seenList: seq<string>)
    requires name in state && state[name] == ["100", "99", "98"]
    requires Ids(articles) == ["102", "101", "100", "99"]
    ensures Ids(Step(state, name, articles, sendBacklog, seenList).posts) == ["101", "102"]
  {
    ExampleSeen(state, name);
    ExampleUnseen(articles, Seen(state, name));
    assert Step(state, name, articles, sendBacklog, seenList).posts == Reversed([articles[0], articles[1]]);
  }

  lemma ExampleState(state: State, name: string, articles: seq<Article>, sendBacklog: bool,
                     seenList: seq<string>)
    requires name in state && state[name] == ["100", "99", "98"]
    requires Ids(articles) == ["102", "101", "100", "99"]
    requires Arrangement(seenList, Seen(state, name))
    ensures Step(state, name, articles, sendBacklog, seenList).state[name] == ["102", "101", "100", "99", "98"]
  {
    var ids := Ids(articles);
    ExampleSeen(state, name);
    assert Step(state, name, articles, sendBacklog, seenList).state[name] == Take(Unique(ids + seenList), SEEN_CAP);
    ExampleMerge(ids, seenList);
  }

  /** The worked example of the academic notice board: seen ["100", "99", "98"],
      listed ["102", "101", "100", "99"]; "101" then "102" are reported and the seen
      list becomes ["102", "101", "100", "99", "98"], whatever order the set gave. */
  lemma AcademicBoardExample(state: State, name: string, articles: seq<Article>, sendBacklog: bool,
                             seenList: seq<string>)
    requires name in state && state[name] == ["100", "99", "98"]
    requires Ids(articles) == ["102", "101", "100", "99"]
    requires Arrangement(seenList, Seen(state, name))
    ensures var r := Step(state, name, articles, sendBacklog, seenList);
      && Ids(r.posts) == ["101", "102"]
      && r.state[name] == ["102", "101", "100", "99", "98"]
  {
    ExamplePosts(state, name, articles, sendBacklog, seenList);
    ExampleState(state, name, articles, sendBacklog, seenList);
  }

  // ---------------------------------------------------------------------------
  // The run: every board in order, one save, at most one notification

  /** A configured board together with the records scraped from its listing page. */
  datatype Board = Board(name: string, listing: seq<RawArticle>)

  /** One entry of `new_by_board`. */
  datatype BoardNews = BoardNews(name: string, posts: seq<Article>)

  function BoardNames(boards: seq<Board>): (names: seq<string>)
    ensures |names| == |boards| && forall i :: 0 <= i < |boards| ==> names[i] == boards[i].name
  {
    seq(|boards|, i requires 0 <= i < |boards| => boards[i].name)
  }

  lemma BoardNamesSnoc(boards: seq<Board>)
    requires boards != []
    ensures BoardNames(boards) == BoardNames(boards[..|boards| - 1]) + [boards[|boards| - 1].name]
  {
  }

  function NewsNames(news: seq<BoardNews>): (names: seq<string>)
    ensures |names| == |news| && forall i :: 0 <= i < |news| ==> names[i] == news[i].name
  {
    seq(|news|, i requires 0 <= i < |news| => news[i].name)
  }

  /** `new_by_board[name] = posts` on an insertion-ordered dict: an existing entry
      is replaced where it stands, a new one goes last. */
  function Put(news: seq<BoardNews>, name: string, posts: seq<Article>): (r: seq<BoardNews>)
    requires NoDup(NewsNames(news))
    ensures NewsNames(r) == if name in NewsNames(news) then NewsNames(news) else NewsNames(news) + [name]
    ensures forall i :: 0 <= i < |r| ==> r[i] == if r[i].name == name then BoardNews(name, posts) else news[i]
  {
    var names := NewsNames(news);
    if name in names then
      var k := FirstIndex(names, name);
      var r := news[k := BoardNews(name, posts)];
      assert NewsNames(r) == names;
      r
    else
      var r := news + [BoardNews(name, posts)];
      assert NewsNames(r) == names + [name];
      r
  }

  /** `sum(len(v) for v in new_by_board.values())` */
  function TotalNew(news: seq<BoardNews>): nat {
    if news == [] then 0 else |news[0].posts| + TotalNew(news[1..])
  }

  /** There is something to send exactly when some board has a new post. */
  lemma {:induction false} TotalNewPositive(news: seq<BoardNews>)
    ensures TotalNew(news) > 0 <==> exists i :: 0 <= i < |news| && news[i].posts != []
  {
    if news != [] {
      TotalNewPositive(news[1..]);
      if exists i :: 0 <= i < |news| - 1 && news[1..][i].posts != [] {
        var i :| 0 <= i < |news| - 1 && news[1..][i].posts != [];
        assert news[i + 1].posts != [];
      }
      if exists i :: 0 <= i < |news| && news[i].posts != [] {
        var i :| 0 <= i < |news| && news[i].posts != [];
        if i > 0 {
          assert news[1..][i - 1].posts != [];
        }
      }
    }
  }

  /** What the loop has produced after a run of boards. */
  datatype Outcome = Outcome(state: State, news: seq<BoardNews>)

  /** One pass of the board loop: step the board on its normalised listing and
      record its new posts under its name. */
  function Visit(prev: Outcome, board: Board, sendBacklog: bool, seenList: seq<string>): (o: Outcome)
    requires NoDup(NewsNames(prev.news))
    ensures NewsNames(o.news) ==
      if board.name in NewsNames(prev.news) then NewsNames(prev.news) else NewsNames(prev.news) + [board.name]
  {
    var r := Step(prev.state, board.name, Normalised(board.listing), sendBacklog, seenList);
    Outcome(r.state, Put(prev.news, board.name, r.posts))
  }

  /** The board loop of `main` (notice_watcher.py:159-181) as a function of the
      listing order `lists[i]` Python's set gave for board `i`. */
  function Process(loaded: State, boards: seq<Board>, sendBacklog: bool, lists: seq<seq<string>>): (o: Outcome)
    requires |lists| == |boards|
    ensures NoDup(NewsNames(o.news))
    ensures NewsNames(o.news) == Unique(BoardNames(boards))
  {
    if boards == [] then Outcome(loaded, [])
    else
      var n := |boards| - 1;
      var prev := Process(loaded, boards[..n], sendBacklog, lists[..n]);
      BoardNamesSnoc(boards);
      UniqueSnoc(BoardNames(boards[..n]), boards[n].name);
      Visit(prev, boards[n], sendBacklog, lists[n])
  }

  /** Each `lists[i]` is a duplicate-free listing of the seen set board `i` had when
      it was reached (empty for a seeded board, which never reads it). */
  ghost predicate Fits(loaded: State, boards: seq<Board>, sendBacklog: bool, lists: seq<seq<string>>)
    requires |lists| == |boards|
  {
    boards == [] ||
    var n := |boards| - 1;
    var prev := Process(loaded, boards[..n], sendBacklog, lists[..n]);
    && Fits(loaded, boards[..n], sendBacklog, lists[..n])
    && if Seeds(prev.state, boards[n].name, sendBacklog) then lists[n] == []
       else Arrangement(lists[n], Seen(prev.state, boards[n].name))
  }

  /** The board loop's step at board `i`: `Process` and `Fits` extend by that
      board, `Fits` exactly when the order used fits the seen set it had. */
  lemma RunStep(loaded: State, boards: seq<Board>, sendBacklog: bool, lists: seq<seq<string>>,
                seenList: seq<string>)
    requires |lists| < |boards|
    ensures var i := |lists|;
      var prev := Process(loaded, boards[..i], sendBacklog, lists);
      && Process(loaded, boards[..i + 1], sendBacklog, lists + [seenList]) == Visit(prev, boards[i], sendBacklog, seenList)
      && (Fits(loaded, boards[..i + 1], sendBacklog, lists + [seenList]) <==>
          && Fits(loaded, boards[..i], sendBacklog, lists)
          && if Seeds(prev.state, boards[i].name, sendBacklog) then seenList == []
             else Arrangement(seenList, Seen(prev.state, boards[i].name)))
  {
    var i := |lists|;
    assert boards[..i + 1][..i] == boards[..i];
    assert (lists + [seenList])[..i] == lists;
  }

  /** Every stored list is duplicate-free and within the 500-entry cap. */
  ghost predicate WellFormed(state: State) {
    forall b :: b in state ==> NoDup(state[b]) && |state[b]| <= SEEN_CAP
  }

  /** A step on duplicate-free identities keeps the state well formed. */
  lemma StepWellFormed(state: State, name: string, articles: seq<Article>, sendBacklog: bool,
                       seenList: seq<string>)
    requires WellFormed(state)
    requires DistinctIds(articles)
    ensures WellFormed(Step(state, name, articles, sendBacklog, seenList).state)
  {
    var r := Step(state, name, articles, sendBacklog, seenList);
    var ids := Ids(articles);
    if Seeds(state, name, sendBacklog) {
      var e := r.state[name];
      assert e == Take(ids, SEED_COUNT);
      assert NoDup(ids);
      assert NoDup(e) by {
        forall i, j | 0 <= i < j < |e|
          ensures e[i] != e[j]
        {
          assert e[i] == ids[i] && e[j] == ids[j];
        }
      }
    }
  }

  /** The loop keeps the state well formed, whatever the boards list. */
  lemma {:induction false} ProcessWellFormed(loaded: State, boards: seq<Board>, sendBacklog: bool,
                                             lists: seq<seq<string>>)
    requires |lists| == |boards|
    requires WellFormed(loaded)
    ensures WellFormed(Process(loaded, boards, sendBacklog, lists).state)
  {
    if boards != [] {
      var n := |boards| - 1;
      var prev := Process(loaded, boards[..n], sendBacklog, lists[..n]);
      ProcessWellFormed(loaded, boards[..n], sendBacklog, lists[..n]);
      NormalisedSpec(boards[n].listing);
      StepWellFormed(prev.state, boards[n].name, Normalised(boards[n].listing), sendBacklog, lists[n]);
    }
  }

  /** After the loop every configured board has an entry, and a stored board that
      is no longer configured keeps its entry untouched. */
  lemma {:induction false} ProcessBoards(loaded: State, boards: seq<Board>, sendBacklog: bool,
                                         lists: seq<seq<string>>)
    requires |lists| == |boards|
    ensures var o := Process(loaded, boards, sendBacklog, lists);
      && (forall b :: b in BoardNames(boards) ==> b in o.state)
      && (forall b :: b !in BoardNames(boards) ==>
            (b in o.state <==> b in loaded) && (b in loaded ==> o.state[b] == loaded[b]))
  {
    if boards != [] {
      var n := |boards| - 1;
      ProcessBoards(loaded, boards[..n], sendBacklog, lists[..n]);
      BoardNamesSnoc(boards);
    }
  }

  /** `list(seen)`: the members of a set in an order the model leaves open. */
  method ListOfSet(s: set<string>) returns (l: seq<string>)
    ensures Arrangement(l, s)
  {
    l := [];
    var rest := s;
    while rest != {}
      invariant NoDup(l)
      invariant Elems(l) + rest == s
      invariant Elems(l) !! rest
      decreases |rest|
    {
      var x :| x in rest;
      assert x !in l;
      l := l + [x];
      rest := rest - {x};
    }
  }

  /** The body of the board loop for one board: scrape, normalise, list the seen
      set, step, record the new posts. */
  method VisitBoard(saved: State, news: seq<BoardNews>, board: Board, sendBacklog: bool)
    returns (saved': State, news': seq<BoardNews>, ghost seenList: seq<string>)
    requires NoDup(NewsNames(news))
    ensures if Seeds(saved, board.name, sendBacklog) then seenList == []
            else Arrangement(seenList, Seen(saved, board.name))
    ensures Outcome(saved', news') == Visit(Outcome(saved, news), board, sendBacklog, seenList)
    ensures board.name in saved'
    ensures NewsNames(news') == if board.name in NewsNames(news) then NewsNames(news) else NewsNames(news) + [board.name]
  {
    var articles := ExtractArticles(board.listing);
    var order: seq<string> := [];
    if !Seeds(saved, board.name, sendBacklog) {
      order := ListOfSet(Seen(saved, board.name));
    }
    var r := Step(saved, board.name, articles, sendBacklog, order);
    saved', news', seenList := r.state, Put(news, board.name, r.posts), order;
  }

  /** The board loop of `main` (notice_watcher.py:157-181): processes the boards
      in order, each updating the state and its `new_by_board` entry. `lists`
      records the set orders that occurred. */
  method VisitAll(loaded: State, boards: seq<Board>, sendBacklog: bool)
    returns (saved: State, news: seq<BoardNews>, ghost lists: seq<seq<string>>)
    ensures |lists| == |boards| && Fits(loaded, boards, sendBacklog, lists)
    ensures Outcome(saved, news) == Process(loaded, boards, sendBacklog, lists)
  {
    saved, news, lists := loaded, [], [];
    for i := 0 to |boards|
      invariant |lists| == i
      invariant Fits(loaded, boards[..i], sendBacklog, lists)
      invariant Outcome(saved, news) == Process(loaded, boards[..i], sendBacklog, lists)
    {
      ghost var seenList;
      saved, news, seenList := VisitBoard(saved, news, boards[i], sendBacklog);
      RunStep(loaded, boards, sendBacklog, lists, seenList);
      lists := lists + [seenList];
    }
    assert boards[..|boards|] == boards;
  }

  /** `main` after loading the state (notice_watcher.py:157-190): runs the board
      loop; `saved` is what the one `save_state` call writes, and `notified` tells
      whether `send_email` is called. */
  method Run(loaded: State, boards: seq<Board>, sendBacklog: bool)
    returns (saved: State, news: seq<BoardNews>, notified: bool, ghost lists: seq<seq<string>>)
    ensures |lists| == |boards| && Fits(loaded, boards, sendBacklog, lists)
    ensures Outcome(saved, news) == Process(loaded, boards, sendBacklog, lists)
    ensures notified <==> exists i :: 0 <= i < |news| && news[i].posts != []
  {
    saved, news, lists := VisitAll(loaded, boards, sendBacklog);
    var totalNew := TotalNew(news);
    TotalNewPositive(news);
    notified := totalNew > 0;
  }
}
