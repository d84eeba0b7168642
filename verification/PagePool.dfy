/**
 * The page pool of `fixsizememorypool.c`: 4 KiB pages carved by bumping an aligned pointer,
 * a count of live pieces per page that rewinds the page at zero, and large blocks whose
 * headers are themselves small pieces. Addresses are integers; what the operating system's
 * allocator answers is an input.
 */
module PagePool {

  const PAGE_SIZE: int := 4096
  const ALIGNMENT: int := 16
  const NODE_SIZE: int := 32        // sizeof(struct mp_node_s)
  const POOL_SIZE: int := 24        // sizeof(struct mp_pool_s)
  const LARGE_SIZE: int := 24       // sizeof(struct mp_large_s)
  const WORD: int := 0x1_0000_0000_0000_0000

  /** A page: `base` is its block, `node` its header (after the pool's own in the first page). */
  datatype Page = Page(base: int, node: int, end: int, last: int, quote: int, failed: int)

  /** A large-block header at address `hdr`; `alloc` 0 marks a released one. */
  datatype Large = Large(hdr: int, size: int, alloc: int)

  /** A live small piece: its size, its page, and whether a caller (not a large header) owns it. */
  datatype Small = Small(size: int, page: nat, user: bool)

  /** The reply of `posix_memalign`. */
  datatype Os = Refused | Granted(addr: int)

  /** `mp_align_ptr(p, 16)`. */
  function Align(x: int): int {
    (x + 15) / 16 * 16
  }

  /** A `ptrdiff_t` converted to `size_t` for a comparison. */
  function ToUnsigned(d: int): int {
    if d < 0 then d + WORD else d
  }

  /** A `size_t` stored in an `int`. */
  function ToInt32(n: int): int {
    var w := n % 0x1_0000_0000;
    if w < 0x8000_0000 then w else w - 0x1_0000_0000
  }

  lemma AlignBounds(x: int, end: int)
    requires x <= end && end % 16 == 0
    ensures x <= Align(x) <= end && Align(x) % 16 == 0 && Align(x) < x + 16
  {
  }

  // ---------------------------------------------------------------- soundness of a pool

  ghost predicate Disjoint(a: int, la: int, b: int, lb: int) {
    a + la <= b || b + lb <= a
  }

  ghost predicate PageOk(p: Page, first: bool) {
    && p.base > 0 && p.base % 16 == 0 && p.end == p.base + PAGE_SIZE
    && p.node == (if first then p.base + POOL_SIZE else p.base)
    && p.node + NODE_SIZE <= p.last <= p.end
  }

  ghost predicate PagesOk(pages: seq<Page>) {
    && |pages| > 0
    && (forall i | 0 <= i < |pages| :: PageOk(pages[i], i == 0))
    && (forall i, j | 0 <= i < j < |pages| :: Disjoint(pages[i].base, PAGE_SIZE, pages[j].base, PAGE_SIZE))
  }

  /** Large blocks are aligned and apart from each other and from every page. */
  ghost predicate BigOk(pages: seq<Page>, big: map<int, int>) {
    && (forall a | a in big :: a > 0 && a % 16 == 0 && big[a] > 0)
    && (forall a, i | a in big && 0 <= i < |pages| :: Disjoint(a, big[a], pages[i].base, PAGE_SIZE))
    && (forall a, b | a in big && b in big && a != b :: Disjoint(a, big[a], b, big[b]))
  }

  /** A small piece lies in the used part of its page. */
  ghost predicate InPage(pages: seq<Page>, a: int, s: Small) {
    && s.page < |pages| && s.size > 0 && a % 16 == 0
    && pages[s.page].node + NODE_SIZE <= a && a + s.size <= pages[s.page].last
  }

  ghost predicate SmallOk(pages: seq<Page>, small: map<int, Small>) {
    && (forall a | a in small :: InPage(pages, a, small[a]))
    && (forall a, b | a in small && b in small && a != b :: Disjoint(a, small[a].size, b, small[b].size))
  }

  ghost function PiecesIn(small: map<int, Small>, i: nat): set<int> {
    set a | a in small && small[a].page == i
  }

  /** Every page counts its live pieces. */
  ghost predicate QuotesOk(pages: seq<Page>, small: map<int, Small>) {
    forall i | 0 <= i < |pages| :: pages[i].quote == |PiecesIn(small, i)|
  }

  /** Every large header is a live piece of the pool, and the headers in use name the large blocks. */
  ghost predicate LargeOk(large: seq<Large>, small: map<int, Small>, big: map<int, int>) {
    && (forall i | 0 <= i < |large| ::
          large[i].hdr in small && !small[large[i].hdr].user && small[large[i].hdr].size == LARGE_SIZE)
    && (forall i, j | 0 <= i < j < |large| :: large[i].hdr != large[j].hdr)
    && (forall i | 0 <= i < |large| && large[i].alloc != 0 :: large[i].alloc in big)
    && (forall i, j | 0 <= i < j < |large| && large[i].alloc != 0 :: large[i].alloc != large[j].alloc)
    && (forall i | 0 <= i < |large| && large[i].alloc == 0 :: large[i].size == 0)
    && (forall a | a in big :: exists i :: 0 <= i < |large| && large[i].alloc == a)
  }

  ghost predicate Sound(pages: seq<Page>, large: seq<Large>, small: map<int, Small>, big: map<int, int>) {
    && PagesOk(pages) && BigOk(pages, big) && SmallOk(pages, small) && QuotesOk(pages, small)
    && LargeOk(large, small, big)
  }

  /** Pieces of different pages, and pieces and large blocks, never overlap either. */
  lemma AllApart(pages: seq<Page>, large: seq<Large>, small: map<int, Small>, big: map<int, int>, a: int, b: int)
    requires Sound(pages, large, small, big) && a in small && b in big
    ensures Disjoint(a, small[a].size, b, big[b])
  {
    assert InPage(pages, a, small[a]) && PageOk(pages[small[a].page], small[a].page == 0);
    assert Disjoint(b, big[b], pages[small[a].page].base, PAGE_SIZE);
  }

  // ---------------------------------------------------------------- the four changes

  /** The bump pointer of page `i` moves over a new piece. */
  function Bumped(pages: seq<Page>, i: nat, a: int, size: int): seq<Page>
    requires i < |pages|
  {
    pages[i := pages[i].(last := a + size, quote := pages[i].quote + 1)]
  }

  lemma BumpIsFresh(pages: seq<Page>, small: map<int, Small>, i: nat, a: int, size: int)
    requires PagesOk(pages) && SmallOk(pages, small) && i < |pages| && size > 0
    requires a == Align(pages[i].last) && a + size <= pages[i].end
    ensures a !in small && (forall b | b in small :: Disjoint(a, size, b, small[b].size))
    ensures pages[i].node + NODE_SIZE <= a && a % 16 == 0 && pages[i].last <= a
  {
    var p := pages[i];
    assert PageOk(p, i == 0);
    AlignBounds(p.last, p.end);
    forall b | b in small
      ensures Disjoint(a, size, b, small[b].size) && a != b
    {
      var j := small[b].page;
      assert InPage(pages, b, small[b]) && PageOk(pages[j], j == 0);
      if j < i {
        assert Disjoint(pages[j].base, PAGE_SIZE, p.base, PAGE_SIZE);
      } else if i < j {
        assert Disjoint(p.base, PAGE_SIZE, pages[j].base, PAGE_SIZE);
      }
    }
  }

  lemma BumpSmallOk(pages: seq<Page>, small: map<int, Small>, i: nat, a: int, size: int, user: bool)
    requires PagesOk(pages) && SmallOk(pages, small) && i < |pages| && size > 0
    requires a == Align(pages[i].last) && a + size <= pages[i].end
    ensures PagesOk(Bumped(pages, i, a, size)) && SmallOk(Bumped(pages, i, a, size), small[a := Small(size, i, user)])
  {
    BumpIsFresh(pages, small, i, a, size);
    var pages', small' := Bumped(pages, i, a, size), small[a := Small(size, i, user)];
    forall b | b in small'
      ensures InPage(pages', b, small'[b])
    {
      if b != a {
        assert InPage(pages, b, small[b]);
      }
    }
  }

  lemma OneMorePiece(small: map<int, Small>, a: int, piece: Small, j: nat)
    requires a !in small
    ensures |PiecesIn(small[a := piece], j)| == |PiecesIn(small, j)| + if j == piece.page then 1 else 0
  {
    var now := PiecesIn(small[a := piece], j);
    if j == piece.page {
      assert now == PiecesIn(small, j) + {a};
    } else {
      assert now == PiecesIn(small, j);
    }
  }

  lemma BumpQuotes(pages: seq<Page>, small: map<int, Small>, i: nat, a: int, size: int, user: bool)
    requires QuotesOk(pages, small) && i < |pages| && a !in small
    ensures QuotesOk(Bumped(pages, i, a, size), small[a := Small(size, i, user)])
  {
    forall j | 0 <= j < |pages|
      ensures Bumped(pages, i, a, size)[j].quote == |PiecesIn(small[a := Small(size, i, user)], j)|
    {
      OneMorePiece(small, a, Small(size, i, user), j);
    }
  }

  lemma AddPiece(pages: seq<Page>, large: seq<Large>, small: map<int, Small>, big: map<int, int>,
                 i: nat, a: int, size: int, user: bool)
    requires Sound(pages, large, small, big) && i < |pages| && size > 0
    requires a == Align(pages[i].last) && a + size <= pages[i].end
    ensures a !in small && a > 0 && Sound(Bumped(pages, i, a, size), large, small[a := Small(size, i, user)], big)
  {
    BumpIsFresh(pages, small, i, a, size);
    BumpSmallOk(pages, small, i, a, size, user);
    BumpQuotes(pages, small, i, a, size, user);
  }

  /** A block the operating system may hand out: aligned and apart from everything it gave before. */
  ghost predicate Vacant(pages: seq<Page>, big: map<int, int>, a: int, size: int) {
    && a > 0 && a % 16 == 0
    && (forall i | 0 <= i < |pages| :: Disjoint(a, size, pages[i].base, PAGE_SIZE))
    && (forall b | b in big :: Disjoint(a, size, b, big[b]))
  }

  function BlankPage(a: int): Page {
    Page(a, a, a + PAGE_SIZE, a + NODE_SIZE, 0, 0)
  }

  lemma AddPage(pages: seq<Page>, large: seq<Large>, small: map<int, Small>, big: map<int, int>, a: int)
    requires Sound(pages, large, small, big) && Vacant(pages, big, a, PAGE_SIZE)
    ensures Sound(pages + [BlankPage(a)], large, small, big)
  {
    var pages' := pages + [BlankPage(a)];
    assert PagesOk(pages') && BigOk(pages', big);
    assert forall b | b in small :: InPage(pages, b, small[b]) ==> InPage(pages', b, small[b]);
    assert PiecesIn(small, |pages|) == {} by {
      assert forall b | b in small :: InPage(pages, b, small[b]);
    }
  }

  /** Two page lists that differ in failure counts only. */
  ghost predicate SameButFailed(p: seq<Page>, q: seq<Page>) {
    && |p| == |q| && forall i | 0 <= i < |p| :: q[i] == p[i].(failed := q[i].failed)
  }

  lemma FailedIrrelevant(p: seq<Page>, q: seq<Page>, large: seq<Large>, small: map<int, Small>, big: map<int, int>)
    requires Sound(p, large, small, big) && SameButFailed(p, q)
    ensures Sound(q, large, small, big)
  {
    assert forall b | b in small :: InPage(p, b, small[b]) ==> InPage(q, b, small[b]);
  }

  /** What is left after the piece at `a` is released; an emptied page is rewound to its start. */
  function Released(pages: seq<Page>, i: nat): seq<Page>
    requires i < |pages|
  {
    var p := pages[i].(quote := pages[i].quote - 1);
    pages[i := if p.quote == 0 then p.(last := p.node + NODE_SIZE, failed := 0) else p]
  }

  lemma ReleaseQuotes(pages: seq<Page>, small: map<int, Small>, a: int)
    requires QuotesOk(pages, small) && a in small && small[a].page < |pages|
    ensures QuotesOk(Released(pages, small[a].page), small - {a})
    ensures pages[small[a].page].quote == 1 ==> forall b | b in small && b != a :: small[b].page != small[a].page
  {
    var i := small[a].page;
    forall j | 0 <= j < |pages|
      ensures |PiecesIn(small - {a}, j)| == |PiecesIn(small, j)| - if j == i then 1 else 0
    {
      assert PiecesIn(small - {a}, j) == if j == i then PiecesIn(small, j) - {a} else PiecesIn(small, j);
    }
    if pages[i].quote == 1 {
      assert |PiecesIn(small, i) - {a}| == 0;
      forall b | b in small && b != a
        ensures small[b].page != i
      {
        assert b !in PiecesIn(small, i) - {a};
      }
    }
  }

  lemma RemovePiece(pages: seq<Page>, large: seq<Large>, small: map<int, Small>, big: map<int, int>, a: int)
    requires Sound(pages, large, small, big) && a in small && small[a].user
    ensures small[a].page < |pages| && Sound(Released(pages, small[a].page), large, small - {a}, big)
  {
    assert InPage(pages, a, small[a]);
    var pages' := Released(pages, small[a].page);
    ReleaseQuotes(pages, small, a);
    assert PageOk(pages[small[a].page], small[a].page == 0);
    assert PagesOk(pages');
    forall b | b in small - {a}
      ensures InPage(pages', b, small[b])
    {
      assert InPage(pages, b, small[b]);
    }
  }

  /** A rewound page has all its room again; the first page also holds the pool's own header. */
  lemma EmptiedServes(p: Page, first: bool)
    requires PageOk(p, first) && p.last == p.node + NODE_SIZE
    ensures forall size :: Fits(p, size) <==> size <= PAGE_SIZE - NODE_SIZE - if first then 32 else 0
  {
    assert Align(p.last) == p.base + if first then 64 else 32;
  }

  /** A freed pointer leads to the page that served it, and to no other. */
  lemma ServingPage(pages: seq<Page>, small: map<int, Small>, a: int, i: nat)
    requires PagesOk(pages) && SmallOk(pages, small) && a in small && i < |pages|
    ensures pages[i].node <= a <= pages[i].end <==> i == small[a].page
  {
    var j := small[a].page;
    assert InPage(pages, a, small[a]) && PageOk(pages[j], j == 0) && PageOk(pages[i], i == 0);
    if i < j {
      assert Disjoint(pages[i].base, PAGE_SIZE, pages[j].base, PAGE_SIZE);
    } else if j < i {
      assert Disjoint(pages[j].base, PAGE_SIZE, pages[i].base, PAGE_SIZE);
    }
  }

  lemma AddBig(pages: seq<Page>, large: seq<Large>, small: map<int, Small>, big: map<int, int>,
               i: nat, a: int, size: int)
    requires Sound(pages, large, small, big) && Vacant(pages, big, a, size) && size > 0
    requires i < |large| && large[i].alloc == 0
    ensures a !in big
    ensures Sound(pages, large[i := large[i].(size := ToInt32(size), alloc := a)], small, big[a := size])
  {
    assert a !in big;
    BigLarger(pages, big, a, size);
    var large', big' := large[i := large[i].(size := ToInt32(size), alloc := a)], big[a := size];
    forall b | b in big'
      ensures exists j :: 0 <= j < |large'| && large'[j].alloc == b
    {
      if b == a {
        assert large'[i].alloc == b;
      } else {
        var j :| 0 <= j < |large| && large[j].alloc == b;
        assert large'[j].alloc == b;
      }
    }
  }

  lemma BigLarger(pages: seq<Page>, big: map<int, int>, a: int, size: int)
    requires BigOk(pages, big) && Vacant(pages, big, a, size) && size > 0
    ensures BigOk(pages, big[a := size])
  {
  }

  lemma NewBig(pages: seq<Page>, large: seq<Large>, small: map<int, Small>, big: map<int, int>,
               h: int, a: int, size: int)
    requires Sound(pages, large, small, big) && Vacant(pages, big, a, size) && size > 0
    requires h in small && !small[h].user && small[h].size == LARGE_SIZE
    requires forall i | 0 <= i < |large| :: large[i].hdr != h
    ensures a !in big && Sound(pages, [Large(h, ToInt32(size), a)] + large, small, big[a := size])
  {
    assert a !in big;
    BigLarger(pages, big, a, size);
    var large', big' := [Large(h, ToInt32(size), a)] + large, big[a := size];
    forall b | b in big'
      ensures exists j :: 0 <= j < |large'| && large'[j].alloc == b
    {
      if b == a {
        assert large'[0].alloc == b;
      } else {
        var j :| 0 <= j < |large| && large[j].alloc == b;
        assert large'[j + 1].alloc == b;
      }
    }
  }

  lemma RemoveBig(pages: seq<Page>, large: seq<Large>, small: map<int, Small>, big: map<int, int>, i: nat)
    requires Sound(pages, large, small, big) && i < |large| && large[i].alloc != 0
    ensures Sound(pages, large[i := large[i].(size := 0, alloc := 0)], small, big - {large[i].alloc})
  {
    var large', big' := large[i := large[i].(size := 0, alloc := 0)], big - {large[i].alloc};
    forall b | b in big'
      ensures exists j :: 0 <= j < |large'| && large'[j].alloc == b
    {
      var j :| 0 <= j < |large| && large[j].alloc == b;
      assert large'[j].alloc == b;
    }
  }

  // ---------------------------------------------------------------- what callers hold

  /** The regions handed to callers: address to size. */
  ghost function Live(small: map<int, Small>, big: map<int, int>): map<int, int> {
    (map a | a in small && small[a].user :: small[a].size) + big
  }

  /** A region lies in the used part of page `i`, past its node header. */
  ghost predicate InUsed(pages: seq<Page>, a: int, size: int, i: nat) {
    i < |pages| && pages[i].node + NODE_SIZE <= a && a + size <= pages[i].last <= pages[i].end
  }

  /** A region lies in one page and apart from every other. */
  ghost predicate InOnePage(pages: seq<Page>, a: int, size: int) {
    exists i :: InUsed(pages, a, size, i)
                && forall j | 0 <= j < |pages| && j != i :: Disjoint(a, size, pages[j].base, PAGE_SIZE)
  }

  lemma PieceInOnePage(pages: seq<Page>, small: map<int, Small>, a: int)
    requires PagesOk(pages) && SmallOk(pages, small) && a in small
    ensures a > 0 && a % 16 == 0 && InOnePage(pages, a, small[a].size)
  {
    var i := small[a].page;
    assert InPage(pages, a, small[a]) && PageOk(pages[i], i == 0);
    forall j | 0 <= j < |pages| && j != i
      ensures Disjoint(a, small[a].size, pages[j].base, PAGE_SIZE)
    {
      assert i < j ==> Disjoint(pages[i].base, PAGE_SIZE, pages[j].base, PAGE_SIZE);
      assert j < i ==> Disjoint(pages[j].base, PAGE_SIZE, pages[i].base, PAGE_SIZE);
    }
    assert InUsed(pages, a, small[a].size, i);
  }

  /**
   * Whatever callers hold is aligned, pairwise apart, apart from every large header, and either
   * inside the used part of one page past its node header or a large block apart from every page.
   */
  lemma LiveApart(pages: seq<Page>, large: seq<Large>, small: map<int, Small>, big: map<int, int>)
    requires Sound(pages, large, small, big)
    ensures var live := Live(small, big);
            && (forall a | a in live :: a > 0 && a % 16 == 0 && live[a] > 0)
            && (forall a, b | a in live && b in live && a != b :: Disjoint(a, live[a], b, live[b]))
            && (forall a, i | a in live && 0 <= i < |large| :: Disjoint(a, live[a], large[i].hdr, LARGE_SIZE))
            && (forall a | a in live :: InOnePage(pages, a, live[a]) || (a in big && live[a] == big[a]))
            && (forall a, i | a in big && 0 <= i < |pages| :: Disjoint(a, big[a], pages[i].base, PAGE_SIZE))
  {
    var live := Live(small, big);
    forall a, b | a in small && b in big
      ensures Disjoint(a, small[a].size, b, big[b])
    {
      AllApart(pages, large, small, big, a, b);
    }
    forall a | a in live && a !in big
      ensures a > 0 && InOnePage(pages, a, live[a])
    {
      PieceInOnePage(pages, small, a);
    }
  }

  /** Large headers are aligned, pairwise apart, apart from large blocks, and inside the used part of one page. */
  lemma HeadersApart(pages: seq<Page>, large: seq<Large>, small: map<int, Small>, big: map<int, int>)
    requires Sound(pages, large, small, big)
    ensures forall i | 0 <= i < |large| :: large[i].hdr % 16 == 0 && InOnePage(pages, large[i].hdr, LARGE_SIZE)
    ensures forall i, j | 0 <= i < j < |large| :: Disjoint(large[i].hdr, LARGE_SIZE, large[j].hdr, LARGE_SIZE)
    ensures forall i, b | 0 <= i < |large| && b in big :: Disjoint(large[i].hdr, LARGE_SIZE, b, big[b])
  {
    forall i | 0 <= i < |large|
      ensures large[i].hdr % 16 == 0 && InOnePage(pages, large[i].hdr, LARGE_SIZE)
    {
      PieceInOnePage(pages, small, large[i].hdr);
    }
    forall i, b | 0 <= i < |large| && b in big
      ensures Disjoint(large[i].hdr, LARGE_SIZE, b, big[b])
    {
      AllApart(pages, large, small, big, large[i].hdr, b);
    }
  }

  lemma LivePiece(small: map<int, Small>, big: map<int, int>, a: int, piece: Small)
    requires a !in small && a !in big
    ensures Live(small[a := piece], big) == if piece.user then Live(small, big)[a := piece.size] else Live(small, big)
  {
  }

  lemma LiveBig(small: map<int, Small>, big: map<int, int>, a: int, size: int)
    ensures Live(small, big[a := size]) == Live(small, big)[a := size]
  {
  }

  lemma VacantNotLive(pages: seq<Page>, large: seq<Large>, small: map<int, Small>, big: map<int, int>,
                      a: int, size: int)
    requires Sound(pages, large, small, big) && Vacant(pages, big, a, size) && size > 0
    ensures a !in small && a !in big
  {
    forall b | b in small
      ensures b != a
    {
      assert InPage(pages, b, small[b]) && PageOk(pages[small[b].page], small[b].page == 0);
      assert Disjoint(a, size, pages[small[b].page].base, PAGE_SIZE);
    }
  }

  /** The address test of `mp_free`, both ends included. */
  predicate Covers(page: Page, p: int) {
    page.node <= p <= page.end
  }

  /** Page `i` is the first that covers `p`, or `i` is the number of pages and none does. */
  ghost predicate FirstCover(pages: seq<Page>, p: int, i: int) {
    0 <= i <= |pages| && (forall j | 0 <= j < i :: !Covers(pages[j], p)) && (i < |pages| ==> Covers(pages[i], p))
  }

  /** A pointer that callers may free: a region of theirs, or one that no page covers. */
  ghost predicate Freeable(pages: seq<Page>, small: map<int, Small>, big: map<int, int>, p: int) {
    p in Live(small, big) || forall i | 0 <= i < |pages| :: !Covers(pages[i], p)
  }

  /** The first page that covers a piece is the one that served it. */
  lemma PieceCovered(pages: seq<Page>, small: map<int, Small>, p: int, i: nat)
    requires PagesOk(pages) && SmallOk(pages, small) && p in small && FirstCover(pages, p, i)
    ensures i == small[p].page < |pages|
  {
    assert InPage(pages, p, small[p]);
    ServingPage(pages, small, p, small[p].page);
    if i < |pages| {
      ServingPage(pages, small, p, i);
    }
  }

  /** A page that counts one piece less than it holds breaks the pool. */
  lemma StrayBreaks(pages: seq<Page>, large: seq<Large>, small: map<int, Small>, big: map<int, int>, i: nat)
    requires Sound(pages, large, small, big) && i < |pages|
    ensures !Sound(Released(pages, i), large, small, big)
  {
    assert Released(pages, i)[i].quote == |PiecesIn(small, i)| - 1;
  }

  /** Freeing an address inside the only piece of a page rewinds the page under that piece. */
  lemma StrayFree()
    ensures var page := Page(4096, 4120, 8192, 4260, 1, 0);
            var small := map[4160 := Small(100, 0, true)];
            && Sound([page], [], small, map[]) && !Freeable([page], small, map[], 4161)
            && Released([page], 0)[0].last <= 4160
  {
    var page, small := Page(4096, 4120, 8192, 4260, 1, 0), map[4160 := Small(100, 0, true)];
    assert PageOk(page, true) && InPage([page], 4160, small[4160]);
    assert PiecesIn(small, 0) == {4160};
    assert Covers([page][0], 4161);
  }

  lemma FreedLive(small: map<int, Small>, big: map<int, int>, p: int)
    requires p in small ==> p !in big
    ensures p !in big && p in small && small[p].user ==> Live(small - {p}, big) == Live(small, big) - {p}
    ensures p !in small ==> Live(small, big - {p}) == Live(small, big) - {p}
    ensures p !in Live(small, big) ==> Live(small, big) - {p} == Live(small, big)
  {
  }

  lemma NullUncovered(pages: seq<Page>)
    requires PagesOk(pages)
    ensures forall i | 0 <= i < |pages| :: !Covers(pages[i], 0)
  {
    assert forall i | 0 <= i < |pages| :: PageOk(pages[i], i == 0);
  }

  lemma OneFirstCover(pages: seq<Page>, p: int, i: nat)
    requires FirstCover(pages, p, i)
    ensures forall j | FirstCover(pages, p, j) :: j == i
  {
  }

  lemma BigListed(large: seq<Large>, small: map<int, Small>, big: map<int, int>, p: int)
    requires LargeOk(large, small, big)
    ensures p != 0 ==> (p in big <==> exists i :: 0 <= i < |large| && large[i].alloc == p)
  {
  }

  ghost predicate Distinct(s: seq<int>) {
    forall i, j | 0 <= i < j < |s| :: s[i] != s[j]
  }

  lemma RewoundSound(pages: seq<Page>, pages': seq<Page>)
    requires PagesOk(pages) && |pages'| == |pages|
    requires forall i | 0 <= i < |pages| ::
               pages'[i] == pages[i].(last := pages[i].node + NODE_SIZE, quote := 0, failed := 0)
    ensures Sound(pages', [], map[], map[])
  {
    assert forall i | 0 <= i < |pages| :: PageOk(pages[i], i == 0);
    assert forall i: nat :: PiecesIn(map[], i) == {};
  }

  lemma BaseIsNew(pages: seq<Page>, big: map<int, int>, i: nat)
    requires PagesOk(pages) && BigOk(pages, big) && i < |pages|
    ensures pages[i].base !in big
    ensures forall j | 0 <= j < |pages| && j != i :: pages[j].base != pages[i].base
  {
  }

  ghost predicate Bases(p: seq<Page>, q: seq<Page>) {
    |p| <= |q| && forall i | 0 <= i < |p| :: q[i].base == p[i].base
  }

  lemma StillVacant(p: seq<Page>, q: seq<Page>, big: map<int, int>, a: int, size: int)
    requires Vacant(p, big, a, size) && Bases(p, q)
    requires forall i | |p| <= i < |q| :: Disjoint(a, size, q[i].base, PAGE_SIZE)
    ensures Vacant(q, big, a, size)
  {
  }

  // ---------------------------------------------------------------- the search for room

  /** The test of `mp_malloc`, with the pointer difference converted to `size_t` as C does. */
  predicate Fits(p: Page, size: int) {
    ToUnsigned(p.end - Align(p.last)) >= size
  }

  /** The conversion never meets a negative difference, so the test means that the piece fits. */
  lemma FitsMeansRoom(p: Page, first: bool, size: int)
    requires PageOk(p, first)
    ensures p.last <= Align(p.last) <= p.end
    ensures Fits(p, size) <==> Align(p.last) + size <= p.end
  {
    AlignBounds(p.last, p.end);
  }

  ghost predicate NoRoom(pages: seq<Page>, lo: nat, hi: nat, size: int)
    requires hi <= |pages|
  {
    forall i | lo <= i < hi :: !Fits(pages[i], size)
  }

  /** The ageing walk of `mp_malloc_block`: every page from `from` on but the last fails once more. */
  ghost predicate Aged(pages: seq<Page>, from: nat, pages': seq<Page>, now: nat) {
    && SameButFailed(pages, pages')
    && (forall i | 0 <= i < |pages| ::
          pages'[i].failed == pages[i].failed + if from <= i < |pages| - 1 then 1 else 0)
    && from <= now < |pages|
    && (now == from || pages[now - 1].failed > 4)
    && (forall i | now <= i < |pages| - 1 :: pages[i].failed <= 4)
  }

  class Pool {
    var pages: seq<Page>        // in list order, the pool's own page first
    var current: nat            // index of the page where searches start
    var large: seq<Large>       // newest header first
    ghost var small: map<int, Small>
    ghost var big: map<int, int>

    ghost predicate Valid()
      reads this
    {
      Sound(pages, large, small, big) && current < |pages|
    }

    /** `mp_create_pool` once its block has been granted. */
    constructor (base: int)
      requires base > 0 && base % 16 == 0
      ensures Valid() && Live(small, big) == map[] && large == [] && |pages| == 1 && pages[0].base == base
    {
      var node := base + POOL_SIZE;
      pages := [Page(base, node, base + PAGE_SIZE, node + NODE_SIZE, 0, 0)];
      current := 0;
      large := [];
      small := map[];
      big := map[];
    }

    /** The ageing loop; returns the page where the next search starts. */
    method Age()
      requires Valid()
      modifies `pages, `current
      ensures Valid()
      ensures Aged(old(pages), old(current), pages, current)
    {
      var cur, now := current, current;
      while cur + 1 < |pages|
        invariant old(current) <= cur < |pages| == |old(pages)| && old(current) <= now <= cur
        invariant current == old(current)
        invariant SameButFailed(old(pages), pages)
        invariant forall i | 0 <= i < |pages| ::
                    pages[i].failed == old(pages)[i].failed + if current <= i < cur then 1 else 0
        invariant now == current || old(pages)[now - 1].failed > 4
        invariant forall i | now <= i < cur :: old(pages)[i].failed <= 4
      {
        var failed := pages[cur].failed;
        pages := pages[cur := pages[cur].(failed := failed + 1)];
        if failed > 4 {
          now := cur + 1;
        }
        cur := cur + 1;
      }
      current := now;
      FailedIrrelevant(old(pages), pages, large, small, big);
    }

    /** `mp_malloc_block` once its block has been granted. */
    method MallocBlock(size: int, addr: int, ghost user: bool) returns (r: int)
      requires Valid() && 0 < size <= PAGE_SIZE - NODE_SIZE && Vacant(pages, big, addr, PAGE_SIZE)
      modifies `pages, `current, `small
      ensures Valid() && r == addr + NODE_SIZE && r !in old(small)
      ensures small == old(small)[r := Small(size, |old(pages)|, user)]
      ensures |pages| == |old(pages)| + 1 && Aged(old(pages), old(current), pages[..|old(pages)|], current)
      ensures pages[|old(pages)|] == Page(addr, addr, addr + PAGE_SIZE, r + size, 1, 0)
    {
      Age();
      r := Align(addr + NODE_SIZE);
      ghost var before := pages;
      pages := pages + [Page(addr, addr, addr + PAGE_SIZE, r + size, 1, 0)];
      AddPage(before, large, small, big, addr);
      ghost var grown := before + [BlankPage(addr)];
      AddPiece(grown, large, small, big, |before|, r, size, user);
      assert Bumped(grown, |before|, r, size) == pages;
      small := small[r := Small(size, |before|, user)];
      assert pages[..|before|] == before;
    }

    /** The walk of `mp_malloc` to the first page, from `current` on, with room. */
    method FindRoom(size: int) returns (cur: nat)
      requires Valid() && size > 0
      ensures current <= cur <= |pages| && NoRoom(pages, current, cur, size)
      ensures cur < |pages| ==> Align(pages[cur].last) + size <= pages[cur].end
    {
      cur := current;
      while cur < |pages|
        invariant current <= cur <= |pages| && NoRoom(pages, current, cur, size)
      {
        assert PageOk(pages[cur], cur == 0);
        FitsMeansRoom(pages[cur], cur == 0, size);
        if Fits(pages[cur], size) {
          return;
        }
        cur := cur + 1;
      }
    }

    lemma NotBig(a: int)
      requires Valid() && a in small
      ensures a !in big && a > 0
    {
      assert InPage(pages, a, small[a]) && PageOk(pages[small[a].page], small[a].page == 0);
      if a in big {
        AllApart(pages, large, small, big, a, a);
      }
    }

    /** A piece is carved from page `cur`. */
    method Carve(cur: nat, size: int, ghost user: bool) returns (r: int)
      requires Valid() && 0 < size && cur < |pages| && Align(pages[cur].last) + size <= pages[cur].end
      modifies `pages, `small
      ensures Valid() && r == Align(old(pages)[cur].last) && r !in old(small)
      ensures pages == old(pages)[cur := old(pages)[cur].(last := r + size, quote := old(pages)[cur].quote + 1)]
      ensures small == old(small)[r := Small(size, cur, user)]
    {
      r := Align(pages[cur].last);
      AddPiece(pages, large, small, big, cur, r, size, user);
      pages := pages[cur := pages[cur].(last := r + size, quote := pages[cur].quote + 1)];
      small := small[r := Small(size, cur, user)];
    }

    /** The small branch of `mp_malloc`: first fit from `current` on, else a new page, else nothing. */
    method MallocSmall(size: int, block: Os, ghost user: bool) returns (r: int)
      requires Valid() && 0 < size <= PAGE_SIZE - NODE_SIZE
      requires block.Granted? ==> Vacant(pages, big, block.addr, PAGE_SIZE)
      modifies `pages, `current, `small
      ensures Valid()
      ensures r == 0 <==> block.Refused? && NoRoom(old(pages), old(current), |old(pages)|, size)
      ensures r == 0 ==> unchanged(this)
      ensures r != 0 ==> r > 0 && r !in old(small) && r !in big && r in small && small == old(small)[r := small[r]]
      ensures r != 0 ==> small[r].size == size && small[r].user == user
      ensures r != 0 && small[r].page < |old(pages)| ==>
                var i := small[r].page;
                && old(current) <= i && NoRoom(old(pages), old(current), i, size)
                && r == Align(old(pages)[i].last) && current == old(current)
                && pages == old(pages)[i := old(pages)[i].(last := r + size, quote := old(pages)[i].quote + 1)]
      ensures r != 0 && small[r].page >= |old(pages)| ==>
                && NoRoom(old(pages), old(current), |old(pages)|, size)
                && block.Granted? && r == block.addr + NODE_SIZE && |pages| == |old(pages)| + 1
                && pages[|old(pages)|] == Page(block.addr, block.addr, block.addr + PAGE_SIZE, r + size, 1, 0)
                && Aged(old(pages), old(current), pages[..|old(pages)|], current)
    {
      var cur := FindRoom(size);
      if cur < |pages| {
        assert PageOk(pages[cur], cur == 0);
        FitsMeansRoom(pages[cur], cur == 0, size);
        r := Carve(cur, size, user);
        NotBig(r);
      } else {
        match block {
          case Refused =>
            r := 0;
          case Granted(addr) =>
            r := MallocBlock(size, addr, user);
            NotBig(r);
        }
      }
    }

    /** The search of `mp_malloc_large` for a released header, among the first five. */
    method FindReleased() returns (i: nat)
      ensures i <= |large| && (i < |large| ==> i < 5 && large[i].alloc == 0)
      ensures forall j | 0 <= j < i && j < 5 :: large[j].alloc != 0
    {
      i := 0;
      var n := 0;
      while i < |large|
        invariant i <= |large| && n == i <= 4
        invariant forall j | 0 <= j < i :: large[j].alloc != 0
        decreases |large| - i
      {
        if large[i].alloc == 0 {
          return;
        }
        if n > 3 {
          return |large|;
        }
        n := n + 1;
        i := i + 1;
      }
    }

    /** The second half of `mp_malloc_large`: a header of its own for the large block at `addr`. */
    method NewLarge(size: int, addr: int, block: Os) returns (ok: bool)
      requires Valid() && size > 0 && Vacant(pages, big, addr, size)
      requires block.Granted? ==>
                 Vacant(pages, big, block.addr, PAGE_SIZE) && Disjoint(addr, size, block.addr, PAGE_SIZE)
      modifies this
      ensures Valid()
      ensures ok <==> block.Granted? || !NoRoom(old(pages), old(current), |old(pages)|, LARGE_SIZE)
      ensures !ok ==> unchanged(this)
      ensures ok ==> addr !in old(big) && big == old(big)[addr := size]
      ensures ok ==> |large| == |old(large)| + 1 && large[1..] == old(large) && large[0].hdr !in old(big)
      ensures ok ==> large[0].hdr !in old(small)
                     && small == old(small)[large[0].hdr := Small(LARGE_SIZE, small[large[0].hdr].page, false)]
    {
      var h := MallocSmall(LARGE_SIZE, block, false);
      if h == 0 {
        return false;
      }
      ghost var i := small[h].page;
      assert Bases(old(pages), pages) by {
        assert i >= |old(pages)| ==> pages[..|old(pages)|] <= pages;
      }
      StillVacant(old(pages), pages, big, addr, size);
      NewBig(pages, large, small, big, h, addr, size);
      large := [Large(h, ToInt32(size), addr)] + large;
      big := big[addr := size];
      return true;
    }

    /** `mp_malloc_large`: a block of its own, recorded in a released header or a new one. */
    method MallocLarge(size: int, own: Os, block: Os) returns (r: int)
      requires Valid() && size > PAGE_SIZE - NODE_SIZE
      requires own.Granted? ==> Vacant(pages, big, own.addr, size)
      requires block.Granted? ==> Vacant(pages, big, block.addr, PAGE_SIZE)
      requires own.Granted? && block.Granted? ==> Disjoint(own.addr, size, block.addr, PAGE_SIZE)
      modifies this
      ensures Valid()
      ensures r == 0 <==> own.Refused?
                          || ((forall j | 0 <= j < |old(large)| && j < 5 :: old(large)[j].alloc != 0)
                              && block.Refused? && NoRoom(old(pages), old(current), |old(pages)|, LARGE_SIZE))
      ensures r == 0 ==> unchanged(this)
      ensures r != 0 ==> r == own.addr && r !in old(Live(small, big))
      ensures r != 0 ==> Live(small, big) == old(Live(small, big))[r := size]
    {
      if own.Refused? {
        return 0;
      }
      VacantNotLive(pages, large, small, big, own.addr, size);
      var i := FindReleased();
      if i < |large| {
        AddBig(pages, large, small, big, i, own.addr, size);
        large := large[i := large[i].(size := ToInt32(size), alloc := own.addr)];
        big := big[own.addr := size];
      } else {
        var ok := NewLarge(size, own.addr, block);
        if !ok {
          return 0;
        }
        LivePiece(old(small), old(big), large[0].hdr, small[large[0].hdr]);
      }
      r := own.addr;
      LiveBig(small, old(big), r, size);
    }

    /** `mp_malloc`: callers gain one region of `size` bytes, apart from all they held, or nothing changes. */
    method Malloc(size: int, own: Os, block: Os) returns (r: int)
      requires Valid() && 0 <= size < WORD
      requires own.Granted? ==> Vacant(pages, big, own.addr, size)
      requires block.Granted? ==> Vacant(pages, big, block.addr, PAGE_SIZE)
      requires own.Granted? && block.Granted? ==> Disjoint(own.addr, size, block.addr, PAGE_SIZE)
      modifies this
      ensures Valid()
      ensures r == 0 ==> unchanged(this)
      ensures r != 0 ==> size > 0 && r !in old(Live(small, big)) && Live(small, big) == old(Live(small, big))[r := size]
      ensures size > 0 && own.Granted? && block.Granted? ==> r != 0
      ensures size == 0 ==> r == 0
    {
      if size <= 0 {
        return 0;
      }
      if size > PAGE_SIZE - NODE_SIZE {
        r := MallocLarge(size, own, block);
      } else {
        r := MallocSmall(size, block, true);
        if r != 0 {
          LivePiece(old(small), big, r, small[r]);
        }
      }
    }

    /** The first loop of `mp_free`; true when `p` was the block of a large header. */
    method FreeLarge(p: int) returns (found: bool)
      requires Valid()
      modifies `large, `big
      ensures Valid() && (found <==> exists i :: 0 <= i < |old(large)| && old(large)[i].alloc == p)
      ensures big == if found then old(big) - {p} else old(big)
      ensures found && p != 0 ==> p in old(big)
      ensures !found || p == 0 ==> unchanged(this)
    {
      var i := 0;
      while i < |large|
        invariant 0 <= i <= |large| && large == old(large) && big == old(big)
        invariant forall j | 0 <= j < i :: large[j].alloc != p
      {
        if p == large[i].alloc {
          if p != 0 {
            RemoveBig(pages, large, small, big, i);
          }
          large := large[i := large[i].(size := 0, alloc := 0)];
          assert p == 0 ==> large == old(large);
          assert p == 0 ==> big - {p} == big;
          big := big - {p};
          return true;
        }
        i := i + 1;
      }
      return false;
    }

    /**
     * Page `cur` counts one piece less, and is rewound when that makes zero. The pool stays sound
     * exactly when the piece at `p` was one that callers held.
     */
    method Release(p: int, cur: nat)
      requires Valid() && cur < |pages| && (p in small ==> cur == small[p].page)
      modifies `pages, `current, `small
      ensures var was := old(pages)[cur];
              pages == old(pages)[cur := was.(quote := was.quote - 1,
                                              last := if was.quote == 1 then was.node + NODE_SIZE else was.last,
                                              failed := if was.quote == 1 then 0 else was.failed)]
      ensures current == (if old(pages)[cur].quote == 1 then 0 else old(current))
      ensures small == if p in old(small) && old(small)[p].user then old(small) - {p} else old(small)
      ensures Valid() <==> p in old(small) && old(small)[p].user
    {
      assert PageOk(pages[cur], cur == 0);
      if p in small && small[p].user {
        RemovePiece(pages, large, small, big, p);
        small := small - {p};
      } else {
        StrayBreaks(pages, large, small, big, cur);
      }
      pages := pages[cur := pages[cur].(quote := pages[cur].quote - 1)];
      if pages[cur].quote == 0 {
        var start := if cur == 0 then pages[0].base + POOL_SIZE + NODE_SIZE else pages[cur].node + NODE_SIZE;
        pages := pages[cur := pages[cur].(last := start, failed := 0)];
        current := 0;
      }
      assert pages == Released(old(pages), cur);
    }

    /**
     * The second loop of `mp_free`. The first page that covers `p` counts one piece less, the one
     * that served `p` if it is a piece; a pointer into no page changes nothing. The pool stays sound
     * exactly when callers held `p` or no page covers it.
     */
    method FreeSmall(p: int) returns (ghost i: nat)
      requires Valid() && p !in big
      modifies `pages, `current, `small
      ensures FirstCover(old(pages), p, i) && (p in old(small) ==> i == old(small)[p].page)
      ensures i == |old(pages)| ==> unchanged(this)
      ensures i < |old(pages)| ==>
                var was := old(pages)[i];
                && pages == old(pages)[i := was.(quote := was.quote - 1,
                                                 last := if was.quote == 1 then was.node + NODE_SIZE else was.last,
                                                 failed := if was.quote == 1 then 0 else was.failed)]
                && current == if was.quote == 1 then 0 else old(current)
      ensures small == if p in old(small) && old(small)[p].user then old(small) - {p} else old(small)
      ensures Valid() <==> Freeable(old(pages), old(small), big, p)
    {
      var cur := 0;
      while cur < |pages| && !Covers(pages[cur], p)
        invariant 0 <= cur <= |pages|
        invariant forall i | 0 <= i < cur :: !Covers(pages[i], p)
      {
        cur := cur + 1;
      }
      i := cur;
      if p in small {
        PieceCovered(pages, small, p, i);
      }
      if cur < |pages| {
        Release(p, cur);
      }
    }

    /**
     * `mp_free`: the region at `p` is given back and every other one is kept; a page that loses its
     * only piece has all its room again, and the search starts from the first page. The pool stays sound
     * exactly when `p` was freeable; any other pointer into a page makes that page miscount.
     */
    method Free(p: int)
      requires Valid()
      modifies this
      ensures Valid() <==> Freeable(old(pages), old(small), old(big), p)
      ensures Live(small, big) == old(Live(small, big)) - {p}
      ensures p in old(big) ==> pages == old(pages) && current == old(current) && small == old(small)
      ensures p in old(small) ==>
                var i := old(small)[p].page;
                large == old(large) && FirstCover(old(pages), p, i) && i < |old(pages)|
      ensures p !in old(big) ==>
                forall i | FirstCover(old(pages), p, i) && i < |old(pages)| ::
                  var was := old(pages)[i];
                  && pages == old(pages)[i := was.(quote := was.quote - 1,
                                                   last := if was.quote == 1 then was.node + NODE_SIZE else was.last,
                                                   failed := if was.quote == 1 then 0 else was.failed)]
                  && current == if was.quote == 1 then 0 else old(current)
      ensures p in old(small) && old(pages)[old(small)[p].page].quote == 1 ==>
                var i := old(small)[p].page;
                && i < |pages|
                && forall size :: Fits(pages[i], size) <==> size <= PAGE_SIZE - NODE_SIZE - if i == 0 then 32 else 0
      ensures p !in old(Live(small, big)) && Freeable(old(pages), old(small), old(big), p) ==> unchanged(this)
    {
      if p in small {
        NotBig(p);
      }
      NullUncovered(pages);
      BigListed(large, small, big, p);
      var found := FreeLarge(p);
      if !found {
        ghost var i := FreeSmall(p);
        OneFirstCover(old(pages), p, i);
      }
      FreedLive(old(small), old(big), p);
      if p in old(small) && old(pages)[old(small)[p].page].quote == 1 {
        ghost var i := old(small)[p].page;
        assert PageOk(old(pages)[i], i == 0);
        EmptiedServes(pages[i], i == 0);
      }
    }

    /** The loop over the large list that frees every block still in use. */
    method FreeBlocks() returns (freed: seq<int>)
      requires Valid()
      ensures Distinct(freed) && forall a :: a in freed <==> a in big
    {
      freed := [];
      var i := 0;
      while i < |large|
        invariant 0 <= i <= |large| && Distinct(freed)
        invariant forall a :: a in freed <==> exists j :: 0 <= j < i && large[j].alloc == a && a != 0
      {
        if large[i].alloc != 0 {
          assert large[i].alloc !in freed;
          freed := freed + [large[i].alloc];
        }
        i := i + 1;
      }
    }

    /** `mp_reset_pool`: every region is gone, every large block freed once, every page rewound. */
    method Reset() returns (freed: seq<int>)
      requires Valid()
      modifies this
      ensures Valid() && Live(small, big) == map[] && large == [] && current == 0
      ensures Distinct(freed) && forall a :: a in freed <==> a in old(big)
      ensures |pages| == |old(pages)|
      ensures forall i | 0 <= i < |pages| ::
                pages[i] == old(pages)[i].(last := old(pages)[i].node + NODE_SIZE, quote := 0, failed := 0)
    {
      freed := FreeBlocks();
      large := [];
      current := 0;
      var cur := 0;
      while cur < |pages|
        invariant 0 <= cur <= |pages| == |old(pages)| && large == [] && current == 0
        invariant forall i | cur <= i < |pages| :: pages[i] == old(pages)[i]
        invariant forall i | 0 <= i < cur ::
                    pages[i] == old(pages)[i].(last := old(pages)[i].node + NODE_SIZE, quote := 0, failed := 0)
      {
        pages := pages[cur := pages[cur].(last := pages[cur].node + NODE_SIZE, failed := 0, quote := 0)];
        cur := cur + 1;
      }
      small := map[];
      big := map[];
      RewoundSound(old(pages), pages);
    }

    /** `mp_destroy_pool`: every block ever granted and not yet freed is freed, once. */
    method Destroy() returns (freed: seq<int>)
      requires Valid()
      ensures Distinct(freed)
      ensures forall a :: a in freed <==> a in big || exists i :: 0 <= i < |pages| && pages[i].base == a
    {
      freed := FreeBlocks();
      var i := 1;
      while i < |pages|
        invariant 1 <= i <= |pages| && Distinct(freed)
        invariant forall a :: a in freed <==> a in big || exists j :: 1 <= j < i && pages[j].base == a
      {
        BaseIsNew(pages, big, i);
        freed := freed + [pages[i].base];
        i := i + 1;
      }
      BaseIsNew(pages, big, 0);
      freed := freed + [pages[0].base];
    }
  }

  /** `mp_create_pool`: the block asked for always holds the first page. */
  method CreatePool(size: int, reply: Os) returns (pool: Pool?, asked: int)
    requires reply.Granted? ==> reply.addr > 0 && reply.addr % 16 == 0
    ensures asked >= PAGE_SIZE && asked % PAGE_SIZE == 0
    ensures pool == null <==> reply.Refused?
    ensures pool != null ==> fresh(pool) && pool.Valid() && Live(pool.small, pool.big) == map[] && |pool.pages| == 1
    ensures pool != null ==> pool.pages[0].base == reply.addr && pool.pages[0].end <= reply.addr + asked
  {
    asked := if size < PAGE_SIZE || size % PAGE_SIZE != 0 then PAGE_SIZE else size;
    pool := null;
    if reply.Granted? {
      pool := new Pool(reply.addr);
      assert PageOk(pool.pages[0], true);
    }
  }
}
