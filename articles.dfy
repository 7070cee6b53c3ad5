/** The tail of `extract_articles` in notice_watcher.py: each scraped post gets an
    identity, posts are deduplicated by identity through a key-overwriting dict, and
    the result is stable-sorted by a numeric key, largest first.

    The scraper itself (HTTP fetch, HTML selection, title and date extraction,
    URL joining) is not modelled: its output, the raw records in scan order, is the
    input `listing` here. Digits are the ASCII digits '0'..'9'. */
module Articles {
  import opened Seqs

  /** One scraped record before it has an identity. */
  datatype RawArticle = RawArticle(title: string, date: Option<string>, url: string)

  /** A listed post with its resolved identity. */
  datatype Article = Article(id: string, title: string, date: Option<string>, url: string)

  // ---------------------------------------------------------------------------
  // Digits and the sort key

  predicate IsDigit(c: char) {
    '0' <= c <= '9'
  }

  /** Python's `str.isdigit()` restricted to ASCII: non-empty and all digits. */
  predicate IsDigits(s: string) {
    |s| > 0 && forall i :: 0 <= i < |s| ==> IsDigit(s[i])
  }

  function DigitValue(c: char): (d: nat)
    requires IsDigit(c)
    ensures d < 10
  {
    (c as int - '0' as int) as nat
  }

  /** The decimal value of a run of digits (`int(s)`). */
  function DigitsValue(s: string): nat
    requires forall i :: 0 <= i < |s| ==> IsDigit(s[i])
  {
    if s == [] then 0
    else DigitsValue(s[..|s| - 1]) * 10 + DigitValue(s[|s| - 1])
  }

  /** `sort_key`: the identity read as an integer when it is all digits, else 0. */
  function SortKey(id: string): nat {
    if IsDigits(id) then DigitsValue(id) else 0
  }

  function DigitChar(d: nat): (c: char)
    requires d < 10
    ensures IsDigit(c) && DigitValue(c) == d
  {
    ('0' as int + d) as char
  }

  /** The decimal rendering of `n` without leading zeros (`str(n)`). */
  function Decimal(n: nat): (s: string)
    ensures IsDigits(s)
  {
    if n < 10 then [DigitChar(n)] else Decimal(n / 10) + [DigitChar(n % 10)]
  }

  /** An identity that is a number written out has that number as its key. */
  lemma {:induction false} SortKeyOfDecimal(n: nat)
    ensures SortKey(Decimal(n)) == n
  {
    var s := Decimal(n);
    if n < 10 {
      assert s[..0] == [];
      assert DigitsValue(s) == DigitsValue(s[..0]) * 10 + DigitValue(s[0]);
    } else {
      SortKeyOfDecimal(n / 10);
      assert s[..|s| - 1] == Decimal(n / 10);
      assert DigitsValue(s) == DigitsValue(Decimal(n / 10)) * 10 + n % 10;
    }
  }

  // ---------------------------------------------------------------------------
  // Identity resolution: re.search(r"/bbs/mjukr/\d+/(\d+)/artclView\.do", url)

  const BOARD_PATH := "/bbs/mjukr/"
  const VIEW_PATH := "/artclView.do"

  /** End of the maximal run of digits starting at `i`. A greedy `\d+` that must
      be followed by '/' can only match this run, so no backtracking is needed. */
  function DigitRunEnd(s: string, i: nat): (j: nat)
    requires i <= |s|
    ensures i <= j <= |s|
    ensures forall k :: i <= k < j ==> IsDigit(s[k])
    ensures j == |s| || !IsDigit(s[j])
    decreases |s| - i
  {
    if i < |s| && IsDigit(s[i]) then DigitRunEnd(s, i + 1) else i
  }

  /** `pat` occurs in `s` at position `i`. */
  predicate At(s: string, i: nat, pat: string) {
    i + |pat| <= |s| && s[i..i + |pat|] == pat
  }

  /** `(\d+)/artclView\.do` from position `d`: the captured article number. */
  function ArticleNumberFrom(url: string, d: nat): (m: Option<string>)
    requires d <= |url|
    ensures m.Some? ==> IsDigits(m.value)
  {
    var e := DigitRunEnd(url, d);
    if d < e && At(url, e, VIEW_PATH) then Some(url[d..e]) else None
  }

  /** `\d+/(\d+)/artclView\.do` from position `p`. */
  function BoardNumberFrom(url: string, p: nat): (m: Option<string>)
    requires p <= |url|
    ensures m.Some? ==> IsDigits(m.value)
  {
    var q := DigitRunEnd(url, p);
    if p < q < |url| && url[q] == '/' then ArticleNumberFrom(url, q + 1) else None
  }

  /** The captured article number when the whole pattern matches starting at `i`. */
  function MatchAt(url: string, i: nat): (m: Option<string>)
    requires i <= |url|
    ensures m.Some? ==> i < |url| && IsDigits(m.value)
  {
    if At(url, i, BOARD_PATH) then BoardNumberFrom(url, i + |BOARD_PATH|) else None
  }

  /** The text the pattern describes: board path, a board number, '/', the
      article number, the view path. */
  function ArticlePath(board: string, id: string): string {
    BOARD_PATH + board + "/" + id + VIEW_PATH
  }

  /** `url` spells an article path for `board` and `id` starting at `i`. */
  predicate PathAt(url: string, i: nat, board: string, id: string) {
    IsDigits(board) && IsDigits(id) &&
    i + |ArticlePath(board, id)| <= |url| && url[i..i + |ArticlePath(board, id)|] == ArticlePath(board, id)
  }

  lemma DigitRunEndAt(s: string, i: nat, j: nat)
    requires i <= j < |s| && !IsDigit(s[j])
    requires forall k :: i <= k < j ==> IsDigit(s[k])
    ensures DigitRunEnd(s, i) == j
    decreases j - i
  {
    if i < j {
      DigitRunEndAt(s, i + 1, j);
    }
  }

  lemma SliceSplit(s: string, i: nat, j: nat, k: nat)
    requires i <= j <= k <= |s|
    ensures s[i..k] == s[i..j] + s[j..k]
  {
  }

  lemma BoardStage(url: string, p: nat)
    requires p <= |url| && BoardNumberFrom(url, p).Some?
    ensures var q := DigitRunEnd(url, p);
      && p < q < |url| && url[q] == '/' && BoardNumberFrom(url, p) == ArticleNumberFrom(url, q + 1)
  {
  }

  lemma ArticleStage(url: string, d: nat)
    requires d <= |url| && ArticleNumberFrom(url, d).Some?
    ensures var e := DigitRunEnd(url, d);
      && d < e && At(url, e, VIEW_PATH) && ArticleNumberFrom(url, d) == Some(url[d..e])
  {
  }

  /** A non-empty run of digits read off the text is all digits. */
  lemma RunIsDigits(s: string, p: nat, q: nat)
    requires p < q <= |s|
    requires forall k :: p <= k < q ==> IsDigit(s[k])
    ensures IsDigits(s[p..q])
  {
    forall k | 0 <= k < q - p
      ensures IsDigit(s[p..q][k])
    {
      assert s[p..q][k] == s[p + k];
    }
  }

  /** The pieces of an article path, read off the text, spell the path. */
  lemma AssemblePath(url: string, i: nat, p: nat, q: nat, e: nat)
    requires i <= p <= q && q + 1 <= e && e + |VIEW_PATH| <= |url|
    requires url[i..p] == BOARD_PATH && url[q] == '/' && url[e..e + |VIEW_PATH|] == VIEW_PATH
    requires IsDigits(url[p..q]) && IsDigits(url[q + 1..e])
    ensures PathAt(url, i, url[p..q], url[q + 1..e])
  {
    var f := e + |VIEW_PATH|;
    assert url[q..q + 1] == "/";
    SliceSplit(url, i, p, q);
    SliceSplit(url, i, q, q + 1);
    SliceSplit(url, i, q + 1, e);
    SliceSplit(url, i, e, f);
  }

  /** MatchAt recognises exactly the article paths: every match is one ... */
  lemma MatchAtSound(url: string, i: nat)
    requires i <= |url| && MatchAt(url, i).Some?
    ensures exists board :: PathAt(url, i, board, MatchAt(url, i).value)
  {
    var p := i + |BOARD_PATH|;
    assert At(url, i, BOARD_PATH);
    BoardStage(url, p);
    var q := DigitRunEnd(url, p);
    ArticleStage(url, q + 1);
    var e := DigitRunEnd(url, q + 1);
    assert MatchAt(url, i).value == url[q + 1..e];
    RunIsDigits(url, p, q);
    AssemblePath(url, i, p, q, e);
  }

  lemma ArticlePathParts(board: string, id: string)
    ensures var path, n := ArticlePath(board, id), |BOARD_PATH| + |board|;
      && path[..|BOARD_PATH|] == BOARD_PATH
      && path[|BOARD_PATH|..n] == board
      && path[n] == '/'
      && path[n + 1..n + 1 + |id|] == id
      && path[n + 1 + |id|..] == VIEW_PATH
  {
    var head := BOARD_PATH + board + "/";
    assert ArticlePath(board, id) == head + id + VIEW_PATH;
  }

  lemma SubSlice(s: string, i: nat, f: nat, a: nat, b: nat)
    requires i <= f <= |s| && a <= b <= f - i
    ensures s[i..f][a..b] == s[i + a..i + b]
  {
    var l, r := s[i..f][a..b], s[i + a..i + b];
    assert |l| == |r|;
    forall k | 0 <= k < |l|
      ensures l[k] == r[k]
    {
    }
  }

  /** A run of characters equal to an all-digit string is all digits. */
  lemma DigitsSlice(s: string, p: nat, q: nat)
    requires p <= q <= |s| && IsDigits(s[p..q])
    ensures forall k :: p <= k < q ==> IsDigit(s[k])
  {
    forall k | p <= k < q
      ensures IsDigit(s[k])
    {
      assert s[k] == s[p..q][k - p];
    }
  }

  /** The conditions under which MatchAt succeeds, read off its definition. */
  lemma MatchAtWhen(url: string, i: nat, q: nat, e: nat)
    requires i + |BOARD_PATH| < q && q + 1 < e && e + |VIEW_PATH| <= |url|
    requires url[i..i + |BOARD_PATH|] == BOARD_PATH && url[q] == '/'
    requires DigitRunEnd(url, i + |BOARD_PATH|) == q && DigitRunEnd(url, q + 1) == e
    requires url[e..e + |VIEW_PATH|] == VIEW_PATH
    ensures MatchAt(url, i) == Some(url[q + 1..e])
  {
    assert ArticleNumberFrom(url, q + 1) == Some(url[q + 1..e]);
    assert BoardNumberFrom(url, i + |BOARD_PATH|) == Some(url[q + 1..e]);
  }

  /** The pieces of an article path found at `i`. */
  lemma PathPieces(url: string, i: nat, board: string, id: string)
    requires PathAt(url, i, board, id)
    ensures var p := i + |BOARD_PATH|;
      var q := p + |board|;
      var e := q + 1 + |id|;
      && e + |VIEW_PATH| <= |url|
      && url[i..p] == BOARD_PATH && url[p..q] == board && url[q] == '/'
      && url[q + 1..e] == id && url[e..e + |VIEW_PATH|] == VIEW_PATH && url[e] == '/'
  {
    var path := ArticlePath(board, id);
    var p := i + |BOARD_PATH|;
    var q := p + |board|;
    var e := q + 1 + |id|;
    var f := i + |path|;
    assert url[i..f] == path;
    ArticlePathParts(board, id);
    SubSlice(url, i, f, 0, |BOARD_PATH|);
    SubSlice(url, i, f, |BOARD_PATH|, q - i);
    SubSlice(url, i, f, q - i + 1, e - i);
    SubSlice(url, i, f, e - i, f - i);
    assert url[q] == path[q - i];
    assert url[e] == url[e..f][0];
  }

  /** ... and every article path is matched, capturing its article number. */
  lemma MatchAtComplete(url: string, i: nat, board: string, id: string)
    requires PathAt(url, i, board, id)
    ensures MatchAt(url, i) == Some(id)
  {
    PathPieces(url, i, board, id);
    var p := i + |BOARD_PATH|;
    var q := p + |board|;
    var e := q + 1 + |id|;
    DigitsSlice(url, p, q);
    DigitRunEndAt(url, p, q);
    DigitsSlice(url, q + 1, e);
    DigitRunEndAt(url, q + 1, e);
    MatchAtWhen(url, i, q, e);
  }

  /** No match starts anywhere in [i, k). */
  predicate NoMatchBetween(url: string, i: nat, k: nat)
    requires k <= |url|
  {
    forall j :: i <= j < k ==> MatchAt(url, j).None?
  }

  /** Where `re.search` finds its match: the leftmost position at or after `i`
      where the pattern matches, or `|url|` when there is none. */
  function Leftmost(url: string, i: nat): (k: nat)
    requires i <= |url|
    ensures i <= k <= |url|
    ensures k < |url| ==> MatchAt(url, k).Some?
    decreases |url| - i
  {
    if i == |url| || MatchAt(url, i).Some? then i else Leftmost(url, i + 1)
  }

  /** Nothing matches before the leftmost match. */
  lemma {:induction false} LeftmostFirst(url: string, i: nat)
    requires i <= |url|
    ensures NoMatchBetween(url, i, Leftmost(url, i))
    decreases |url| - i
  {
    if !(i == |url| || MatchAt(url, i).Some?) {
      LeftmostFirst(url, i + 1);
    }
  }

  /** The identity of a post (notice_watcher.py:68-69): the article number of the
      leftmost article path in its URL, or the whole URL when there is none. */
  function ResolveId(url: string): (id: string)
    ensures id == url || IsDigits(id)
  {
    var k := Leftmost(url, 0);
    if k < |url| then MatchAt(url, k).value else url
  }

  /** The identity is the URL itself when no article path occurs in it, and
      otherwise the (all-digit) article number of the first one. */
  lemma ResolveIdSpec(url: string)
    ensures NoMatchBetween(url, 0, |url|) ==> ResolveId(url) == url
    ensures forall k :: 0 <= k < |url| && MatchAt(url, k).Some? && NoMatchBetween(url, 0, k) ==>
      ResolveId(url) == MatchAt(url, k).value && IsDigits(ResolveId(url))
  {
    var m := Leftmost(url, 0);
    LeftmostFirst(url, 0);
    forall k | 0 <= k < |url| && MatchAt(url, k).Some? && NoMatchBetween(url, 0, k)
      ensures k == m
    {
    }
  }

  /** Every match begins with "/b". */
  lemma MatchStartsWithSlashB(url: string, i: nat)
    requires i <= |url| && MatchAt(url, i).Some?
    ensures i + 1 < |url| && url[i] == '/' && url[i + 1] == 'b'
  {
    var p := i + |BOARD_PATH|;
    assert url[i..p] == BOARD_PATH;
    assert url[i] == url[i..p][0] && url[i + 1] == url[i..p][1];
  }

  /** A post URL on the university site, e.g.
      https://www.mju.ac.kr/bbs/mjukr/141/223344/artclView.do?page=1, gets its
      article number as identity. An origin without the letter 'b' cannot hold an
      earlier match. */
  lemma ResolveArticleUrl(origin: string, board: string, id: string, query: string)
    requires forall k :: 0 <= k < |origin| ==> origin[k] != 'b'
    requires IsDigits(board) && IsDigits(id)
    ensures ResolveId(origin + ArticlePath(board, id) + query) == id
  {
    var path := ArticlePath(board, id);
    var url := origin + path + query;
    assert url[|origin|..|origin| + |path|] == path;
    MatchAtComplete(url, |origin|, board, id);
    forall j | 0 <= j < |origin|
      ensures MatchAt(url, j).None?
    {
      if MatchAt(url, j).Some? {
        MatchStartsWithSlashB(url, j);
      }
    }
    assert NoMatchBetween(url, 0, |origin|);
    ResolveIdSpec(url);
  }

  /** The record built for one scanned link (notice_watcher.py:68-69, 80-85). */
  function ToArticle(raw: RawArticle): (a: Article)
    ensures a.id == raw.url || IsDigits(a.id)
  {
    Article(ResolveId(raw.url), raw.title, raw.date, raw.url)
  }

  function ToArticles(listing: seq<RawArticle>): (items: seq<Article>)
    ensures |items| == |listing|
    ensures forall i :: 0 <= i < |listing| ==> items[i] == ToArticle(listing[i])
  {
    if listing == [] then []
    else ToArticles(listing[..|listing| - 1]) + [ToArticle(listing[|listing| - 1])]
  }

  lemma ToArticlesSnoc(listing: seq<RawArticle>, i: nat)
    requires i < |listing|
    ensures ToArticles(listing[..i + 1]) == ToArticles(listing[..i]) + [ToArticle(listing[i])]
  {
    assert listing[..i + 1][..i] == listing[..i];
  }

  // ---------------------------------------------------------------------------
  // Deduplication by identity

  function Ids(items: seq<Article>): (ids: seq<string>)
    ensures |ids| == |items|
    ensures forall i :: 0 <= i < |items| ==> ids[i] == items[i].id
  {
    seq(|items|, i requires 0 <= i < |items| => items[i].id)
  }

  predicate DistinctIds(items: seq<Article>) {
    forall i, j :: 0 <= i < j < |items| ==> items[i].id != items[j].id
  }

  /** `k` is the position of the last record with identity `id`. */
  predicate IsLastWith(items: seq<Article>, id: string, k: nat) {
    k < |items| && items[k].id == id && forall j :: k < j < |items| ==> items[j].id != id
  }

  /** Position of the last record with identity `id`. */
  function LastIndex(items: seq<Article>, id: string): (k: nat)
    requires id in Ids(items)
    ensures IsLastWith(items, id, k)
  {
    var n := |items|;
    if items[n - 1].id == id then n - 1
    else
      assert Ids(items) == Ids(items[..n - 1]) + [items[n - 1].id];
      LastIndex(items[..n - 1], id)
  }

  /** The record a key-overwriting dict holds for `id` after the scan. */
  function LastWith(items: seq<Article>, id: string): (a: Article)
    requires id in Ids(items)
    ensures a.id == id && a in items
  {
    items[LastIndex(items, id)]
  }

  /** `list(uniq.values())`: one record per identity, identities in order of
      first occurrence, each holding the last record seen with it. */
  function Deduplicated(items: seq<Article>): (d: seq<Article>)
    ensures Ids(d) == Unique(Ids(items))
  {
    var keys := Unique(Ids(items));
    seq(|keys|, k requires 0 <= k < |keys| => LastWith(items, keys[k]))
  }

  /** The properties that motivate deduplication (notice_watcher.py:88-91). */
  lemma DeduplicatedSpec(items: seq<Article>)
    ensures DistinctIds(Deduplicated(items))
    ensures forall id :: id in Ids(Deduplicated(items)) <==> id in Ids(items)
    ensures forall a :: a in Deduplicated(items) ==> a == LastWith(items, a.id)
    ensures forall k, l :: 0 <= k < l < |Deduplicated(items)| ==>
      FirstIndex(Ids(items), Deduplicated(items)[k].id) < FirstIndex(Ids(items), Deduplicated(items)[l].id)
  {
    var d := Deduplicated(items);
    var ids := Ids(items);
    assert Ids(d) == Unique(ids);
    forall k, l | 0 <= k < l < |d|
      ensures FirstIndex(ids, d[k].id) < FirstIndex(ids, d[l].id)
    {
      assert d[k].id == Unique(ids)[k] && d[l].id == Unique(ids)[l];
      UniqueFirstOccurrenceOrder(ids, k, l);
    }
  }

  /** One more record scanned: only its own identity's entry changes. */
  lemma LastWithSnoc(items: seq<Article>, x: Article, id: string)
    requires id in Ids(items + [x])
    ensures Ids(items + [x]) == Ids(items) + [x.id]
    ensures id != x.id ==> id in Ids(items) && LastWith(items + [x], id) == LastWith(items, id)
    ensures id == x.id ==> LastWith(items + [x], id) == x
  {
    assert (items + [x])[..|items|] == items;
    assert Ids(items + [x]) == Ids(items) + [x.id];
  }

  /** The state of the `uniq` dict after scanning `done`: its keys in insertion
      order are `keys`, and each key holds the last record seen with it. */
  ghost predicate DictAfter(done: seq<Article>, keys: seq<string>, uniq: map<string, Article>) {
    && keys == Unique(Ids(done))
    && (forall id :: id in uniq <==> id in keys)
    && (forall id :: id in uniq ==> id in Ids(done) && uniq[id] == LastWith(done, id))
  }

  lemma IdsSnoc(done: seq<Article>, it: Article)
    ensures Ids(done + [it]) == Ids(done) + [it.id]
  {
  }

  lemma DictKeysSnoc(done: seq<Article>, it: Article, keys: seq<string>)
    requires keys == Unique(Ids(done))
    ensures (if it.id in keys then keys else keys + [it.id]) == Unique(Ids(done + [it]))
  {
    IdsSnoc(done, it);
    UniqueSnoc(Ids(done), it.id);
  }

  lemma DictAfterSnoc(done: seq<Article>, it: Article, keys: seq<string>, uniq: map<string, Article>)
    requires DictAfter(done, keys, uniq)
    ensures DictAfter(done + [it], if it.id in uniq then keys else keys + [it.id], uniq[it.id := it])
  {
    DictKeysSnoc(done, it, keys);
    IdsSnoc(done, it);
    var uniq' := uniq[it.id := it];
    forall id | id in uniq'
      ensures id in Ids(done + [it]) && uniq'[id] == LastWith(done + [it], id)
    {
      if id != it.id {
        assert id in Ids(done);
      }
      LastWithSnoc(done, it, id);
    }
  }

  /** `list(uniq.values())` once the whole scan is done. */
  lemma DictValues(items: seq<Article>, keys: seq<string>, uniq: map<string, Article>)
    requires DictAfter(items, keys, uniq)
    ensures seq(|keys|, k requires 0 <= k < |keys| => uniq[keys[k]]) == Deduplicated(items)
  {
  }

  /** The dict-building loop (notice_watcher.py:88-91): `uniq[it.id] = it` for each
      record, keeping the dict's insertion order as `keys`. */
  method Dedup(items: seq<Article>) returns (out: seq<Article>)
    ensures out == Deduplicated(items)
  {
    var keys: seq<string> := [];
    var uniq: map<string, Article> := map[];
    for i := 0 to |items|
      invariant DictAfter(items[..i], keys, uniq)
    {
      var it := items[i];
      assert items[..i + 1] == items[..i] + [it];
      DictAfterSnoc(items[..i], it, keys, uniq);
      if it.id !in uniq {
        keys := keys + [it.id];
      }
      uniq := uniq[it.id := it];
    }
    assert items[..|items|] == items;
    out := seq(|keys|, k requires 0 <= k < |keys| => uniq[keys[k]]);
    DictValues(items, keys, uniq);
  }

  // ---------------------------------------------------------------------------
  // Stable sort, largest key first: items.sort(key=sort_key, reverse=True)

  predicate NonIncreasing(items: seq<Article>) {
    forall i, j :: 0 <= i < j < |items| ==> SortKey(items[i].id) >= SortKey(items[j].id)
  }

  /** The records of `items` whose key is `key`, in order. */
  function WithKey(items: seq<Article>, key: nat): seq<Article> {
    if items == [] then []
    else (if SortKey(items[0].id) == key then [items[0]] else []) + WithKey(items[1..], key)
  }

  /** Puts `x` before the first record whose key is not larger than its own. */
  function Insert(x: Article, items: seq<Article>): (r: seq<Article>)
    ensures forall y :: y in r <==> y == x || y in items
  {
    if items == [] || SortKey(items[0].id) <= SortKey(x.id) then [x] + items
    else
      assert items == [items[0]] + items[1..];
      [items[0]] + Insert(x, items[1..])
  }

  function SortedByKey(items: seq<Article>): (r: seq<Article>)
    ensures forall y :: y in r <==> y in items
  {
    if items == [] then []
    else
      assert items == [items[0]] + items[1..];
      Insert(items[0], SortedByKey(items[1..]))
  }

  /** Insertion adds exactly one occurrence of `x`. */
  lemma {:induction false} InsertPermutes(x: Article, items: seq<Article>)
    ensures multiset(Insert(x, items)) == multiset(items) + multiset{x}
  {
    if !(items == [] || SortKey(items[0].id) <= SortKey(x.id)) {
      InsertPermutes(x, items[1..]);
      assert items == [items[0]] + items[1..];
    }
  }

  lemma {:induction false} InsertNonIncreasing(x: Article, items: seq<Article>)
    requires NonIncreasing(items)
    ensures NonIncreasing(Insert(x, items))
  {
    var r := Insert(x, items);
    if items == [] || SortKey(items[0].id) <= SortKey(x.id) {
      forall j | 0 < j < |r|
        ensures SortKey(r[0].id) >= SortKey(r[j].id)
      {
        assert r[j] == items[j - 1];
      }
    } else {
      var rest := Insert(x, items[1..]);
      InsertNonIncreasing(x, items[1..]);
      assert r == [items[0]] + rest;
      forall j | 0 < j < |r|
        ensures SortKey(r[0].id) >= SortKey(r[j].id)
      {
        assert r[j] == rest[j - 1];
        assert r[j] in rest;
        if r[j] != x {
          var m :| 0 <= m < |items[1..]| && items[1..][m] == r[j];
          assert items[m + 1] == r[j];
        }
      }
    }
  }

  lemma WithKeyCons(a: Article, rest: seq<Article>, key: nat)
    ensures WithKey([a] + rest, key) == (if SortKey(a.id) == key then [a] else []) + WithKey(rest, key)
  {
    assert ([a] + rest)[1..] == rest;
  }

  lemma {:induction false} InsertWithKey(x: Article, items: seq<Article>, key: nat)
    ensures WithKey(Insert(x, items), key) == (if SortKey(x.id) == key then [x] else []) + WithKey(items, key)
  {
    if items == [] || SortKey(items[0].id) <= SortKey(x.id) {
      WithKeyCons(x, items, key);
    } else {
      var rest := Insert(x, items[1..]);
      InsertWithKey(x, items[1..], key);
      WithKeyCons(items[0], rest, key);
      WithKeyCons(items[0], items[1..], key);
      assert [items[0]] + items[1..] == items;
    }
  }

  lemma {:induction false} InsertDistinct(x: Article, items: seq<Article>)
    requires DistinctIds(items)
    requires forall y :: y in items ==> y.id != x.id
    ensures DistinctIds(Insert(x, items))
  {
    var r := Insert(x, items);
    if items == [] || SortKey(items[0].id) <= SortKey(x.id) {
      forall i, j | 0 <= i < j < |r|
        ensures r[i].id != r[j].id
      {
        assert r[j] == items[j - 1];
        if i > 0 {
          assert r[i] == items[i - 1];
        }
      }
    } else {
      var rest := Insert(x, items[1..]);
      InsertDistinct(x, items[1..]);
      assert r == [items[0]] + rest;
      forall i, j | 0 <= i < j < |r|
        ensures r[i].id != r[j].id
      {
        if i == 0 {
          assert r[j] == rest[j - 1] && r[j] in rest;
          if r[j] != x {
            var m :| 0 <= m < |items[1..]| && items[1..][m] == r[j];
            assert items[m + 1] == r[j];
          }
        } else {
          assert r[i] == rest[i - 1] && r[j] == rest[j - 1];
        }
      }
    }
  }

  lemma {:induction false} SortedNonIncreasing(items: seq<Article>)
    ensures NonIncreasing(SortedByKey(items))
  {
    if items != [] {
      SortedNonIncreasing(items[1..]);
      InsertNonIncreasing(items[0], SortedByKey(items[1..]));
    }
  }

  lemma {:induction false} SortedPermutes(items: seq<Article>)
    ensures multiset(SortedByKey(items)) == multiset(items)
  {
    if items != [] {
      SortedPermutes(items[1..]);
      InsertPermutes(items[0], SortedByKey(items[1..]));
      assert items == [items[0]] + items[1..];
    }
  }

  lemma {:induction false} SortedStable(items: seq<Article>, key: nat)
    ensures WithKey(SortedByKey(items), key) == WithKey(items, key)
  {
    if items != [] {
      SortedStable(items[1..], key);
      InsertWithKey(items[0], SortedByKey(items[1..]), key);
      WithKeyCons(items[0], items[1..], key);
      assert items == [items[0]] + items[1..];
    }
  }

  lemma {:induction false} SortedDistinct(items: seq<Article>)
    requires DistinctIds(items)
    ensures DistinctIds(SortedByKey(items))
  {
    if items != [] {
      var rest := SortedByKey(items[1..]);
      SortedDistinct(items[1..]);
      forall y | y in rest
        ensures y.id != items[0].id
      {
        var m :| 0 <= m < |items[1..]| && items[1..][m] == y;
        assert items[m + 1] == y;
      }
      InsertDistinct(items[0], rest);
    }
  }

  /** The sort is a stable, non-increasing permutation (notice_watcher.py:93-96):
      records of equal key keep their relative order, and distinct identities
      stay distinct. */
  lemma SortedByKeySpec(items: seq<Article>)
    ensures NonIncreasing(SortedByKey(items))
    ensures multiset(SortedByKey(items)) == multiset(items)
    ensures forall key :: WithKey(SortedByKey(items), key) == WithKey(items, key)
    ensures DistinctIds(items) ==> DistinctIds(SortedByKey(items))
  {
    SortedNonIncreasing(items);
    SortedPermutes(items);
    forall key
      ensures WithKey(SortedByKey(items), key) == WithKey(items, key)
    {
      SortedStable(items, key);
    }
    if DistinctIds(items) {
      SortedDistinct(items);
    }
  }

  // ---------------------------------------------------------------------------
  // The whole normalisation

  /** What `extract_articles` returns for the records scraped from one page. */
  function Normalised(listing: seq<RawArticle>): seq<Article> {
    SortedByKey(Deduplicated(ToArticles(listing)))
  }

  /** Sorting a list moves records but loses and adds no identity. */
  lemma SortedByKeyIds(d: seq<Article>)
    ensures forall id :: id in Ids(SortedByKey(d)) <==> id in Ids(d)
  {
    var r := SortedByKey(d);
    forall id
      ensures id in Ids(r) <==> id in Ids(d)
    {
      if id in Ids(r) {
        var i :| 0 <= i < |r| && Ids(r)[i] == id;
        assert r[i] in d;
        var k :| 0 <= k < |d| && d[k] == r[i];
        assert Ids(d)[k] == id;
      }
      if id in Ids(d) {
        var k :| 0 <= k < |d| && Ids(d)[k] == id;
        assert d[k] in r;
        var i :| 0 <= i < |r| && r[i] == d[k];
        assert Ids(r)[i] == id;
      }
    }
  }

  /** Everything the normalised list promises (notice_watcher.py:67-69, 87-97). */
  lemma NormalisedSpec(listing: seq<RawArticle>)
    ensures DistinctIds(Normalised(listing))
    ensures NonIncreasing(Normalised(listing))
    ensures forall id :: id in Ids(Normalised(listing)) <==> id in Ids(ToArticles(listing))
    ensures forall a :: a in Normalised(listing) ==> a == LastWith(ToArticles(listing), a.id)
    ensures forall key :: WithKey(Normalised(listing), key) == WithKey(Deduplicated(ToArticles(listing)), key)
  {
    var d := Deduplicated(ToArticles(listing));
    DeduplicatedSpec(ToArticles(listing));
    SortedByKeySpec(d);
    SortedByKeyIds(d);
  }

  /** `extract_articles` after the scrape: builds the records in scan order,
      deduplicates them through the dict and sorts them. */
  method ExtractArticles(listing: seq<RawArticle>) returns (articles: seq<Article>)
    ensures articles == Normalised(listing)
  {
    var items: seq<Article> := [];
    for i := 0 to |listing|
      invariant items == ToArticles(listing[..i])
    {
      ToArticlesSnoc(listing, i);
      items := items + [ToArticle(listing[i])];
    }
    assert listing[..|listing|] == listing;
    items := Dedup(items);
    articles := SortedByKey(items);
  }
}
