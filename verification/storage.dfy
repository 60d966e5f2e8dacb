/** The main file: a header page and a free list threaded through the free pages. */
module PageStorage {
  import opened Options
  import opened Bytes

  const PAGE_SIZE: nat := 4096

  /** "CDB1" */
  const MAGIC: Data := [67, 68, 66, 49]

  datatype Header = Header(version: nat, pageSize: nat, numPages: nat, freeListHead: nat, docCount: nat)

  datatype StorageError = HeaderTooShort | InvalidMagic | UnexpectedEof

  function Zeros(n: nat): (d: Data)
    ensures |d| == n
  {
    seq(n, _ => 0)
  }

  function Fields(h: Header): (d: Data)
    ensures |d| == 20
  {
    MAGIC + (Digits(h.version, 2) + (Digits(h.pageSize, 2) + (U32(h.numPages) + (U32(h.freeListHead) + U32(h.docCount)))))
  }

  function EncodeHeader(h: Header): (d: Data)
    ensures |d| == PAGE_SIZE
  {
    Fields(h) + Zeros(PAGE_SIZE - 20)
  }

  /** The version and page size are read but not checked. */
  function DecodeHeader(d: Data): Result<Header, StorageError> {
    if |d| < 64 then Err(HeaderTooShort)
    else if d[..4] != MAGIC then Err(InvalidMagic)
    else Ok(Header(Number(d[4..6]), Number(d[6..8]), Number(d[8..12]), Number(d[12..16]), Number(d[16..20])))
  }

  /** Values that fit their header fields. */
  predicate HeaderFits(h: Header) {
    && h.version < 65536 && h.pageSize < 65536
    && h.numPages < U32_LIMIT && h.freeListHead < U32_LIMIT && h.docCount < U32_LIMIT
  }

  lemma U16RoundTrip(n: nat)
    requires n < 65536
    ensures Number(Digits(n, 2)) == n
  {
    assert Limit(1) == 256 && Limit(2) == 65536;
    DigitsRoundTrip(n, 2);
  }

  lemma SixFields(m: Data, v: Data, p: Data, n: Data, f: Data, c: Data, z: Data)
    requires |m| == 4 && |v| == 2 && |p| == 2 && |n| == 4 && |f| == 4 && |c| == 4
    ensures var d := m + (v + (p + (n + (f + c)))) + z;
      d[..4] == m && d[4..6] == v && d[6..8] == p && d[8..12] == n && d[12..16] == f && d[16..20] == c
  {
  }

  lemma HeaderRoundTrip(h: Header)
    requires HeaderFits(h)
    ensures DecodeHeader(EncodeHeader(h)) == Ok(h)
  {
    hide Digits;
    hide Number;
    U16RoundTrip(h.version);
    U16RoundTrip(h.pageSize);
    U32RoundTrip(h.numPages);
    U32RoundTrip(h.freeListHead);
    U32RoundTrip(h.docCount);
    SixFields(MAGIC, Digits(h.version, 2), Digits(h.pageSize, 2), U32(h.numPages), U32(h.freeListHead),
              U32(h.docCount), Zeros(PAGE_SIZE - 20));
  }

  // ---------- The free list ----------

  /** The next free page, written in the first four bytes of a free page; 0 is none. */
  function Link(page: Data): nat
    requires |page| >= 4
  {
    Number(page[..4])
  }

  function First(free: seq<nat>): nat {
    if free == [] then 0 else free[0]
  }

  ghost predicate WholePages(pages: seq<Data>) {
    forall i | 0 <= i < |pages| :: |pages[i]| == PAGE_SIZE
  }

  /** The pages of `free`, in this order, are linked from one to the next. */
  ghost predicate Threaded(pages: seq<Data>, free: seq<nat>)
    requires WholePages(pages)
  {
    forall i | 0 <= i < |free| :: LinkedAt(pages, free, i)
  }

  ghost predicate LinkedAt(pages: seq<Data>, free: seq<nat>, i: nat)
    requires WholePages(pages) && i < |free|
  {
    free[i] < |pages| && Link(pages[free[i]]) == First(free[i + 1..])
  }

  ghost predicate Distinct(free: seq<nat>) {
    forall i, j | 0 <= i < j < |free| :: free[i] != free[j]
  }

  /** Free and used pages are disjoint and are together all pages but the header's. */
  ghost predicate Partition(numPages: nat, free: seq<nat>, used: set<nat>) {
    && (forall p :: p in free || p in used <==> 1 <= p < numPages)
    && (forall p :: !(p in free && p in used))
  }

  ghost predicate FreeListOk(pages: seq<Data>, h: Header, free: seq<nat>, used: set<nat>) {
    && WholePages(pages) && HeaderFits(h) && 1 <= h.numPages <= |pages| && pages[0] == EncodeHeader(h)
    && h.freeListHead == First(free)
    && Distinct(free) && Partition(h.numPages, free, used) && Threaded(pages, free)
  }

  lemma NoHeadNoList(free: seq<nat>)
    requires First(free) == 0 && forall p | p in free :: p >= 1
    ensures free == []
  {
    assert forall i | 0 <= i < |free| :: free[i] in free;
  }

  lemma TakeFirst(pages: seq<Data>, h: Header, free: seq<nat>, used: set<nat>)
    requires FreeListOk(pages, h, free, used) && free != []
    ensures free[0] < |pages|
    ensures var h' := h.(freeListHead := Link(pages[free[0]]));
            FreeListOk(pages[0 := EncodeHeader(h')], h', free[1..], used + {free[0]})
  {
    assert LinkedAt(pages, free, 0);
    var h' := h.(freeListHead := Link(pages[free[0]]));
    var rest, pages' := free[1..], pages[0 := EncodeHeader(h')];
    assert First(rest) < U32_LIMIT by {
      if rest != [] {
        assert rest[0] in free;
      }
    }
    forall i | 0 <= i < |rest| ensures LinkedAt(pages', rest, i) {
      assert LinkedAt(pages, free, i + 1) && rest[i + 1..] == free[i + 2..];
      assert rest[i] in free;
    }
    forall p ensures p in free <==> p == free[0] || p in rest {
      assert free == [free[0]] + rest;
    }
    assert free[0] !in rest;
  }

  /** The head of the list is its first page, which is no used one; the next new page is not
      used either. */
  lemma HeadOfList(pages: seq<Data>, h: Header, free: seq<nat>, used: set<nat>)
    requires FreeListOk(pages, h, free, used)
    ensures |pages| > 0 && h.numPages !in used
    ensures if h.freeListHead == 0 then free == []
            else free != [] && free[0] == h.freeListHead < |pages| && h.freeListHead !in used && |pages[h.freeListHead]| >= 4
  {
    if h.freeListHead == 0 {
      NoHeadNoList(free);
    } else {
      assert free[0] in free && LinkedAt(pages, free, 0);
    }
  }

  /** A link written at the front of a page; the last page of a file may be a part of one. */
  function Relink(page: Data, next: nat): (r: Data)
    ensures |page| >= 4 ==> |r| == |page|
  {
    U32(next) + if |page| >= 4 then page[4..] else []
  }

  function Filled(page: Data): (r: Data)
    ensures |page| >= PAGE_SIZE ==> r == page
  {
    if |page| >= PAGE_SIZE then page else page + Zeros(PAGE_SIZE - |page|)
  }

  /** A write at the start of a page; beyond the end of the file it first fills the gap with zeros. */
  function SetPage(pages: seq<Data>, p: nat, page: Data): (r: seq<Data>)
    ensures p < |r| && |r| >= |pages| && r[p] == page
    ensures forall i | 0 <= i < |pages| && i != p :: r[i] == if p < |pages| then pages[i] else Filled(pages[i])
    ensures forall i | |pages| <= i < |r| && i != p :: r[i] == Zeros(PAGE_SIZE)
  {
    if p < |pages| then pages[p := page]
    else seq(|pages|, i requires 0 <= i < |pages| => Filled(pages[i])) + seq(p - |pages|, _ => Zeros(PAGE_SIZE)) + [page]
  }

  lemma PutFirst(pages: seq<Data>, h: Header, free: seq<nat>, used: set<nat>, p: nat)
    requires FreeListOk(pages, h, free, used) && p in used
    ensures p < |pages|
    ensures var h' := h.(freeListHead := p);
            FreeListOk(pages[p := Relink(pages[p], h.freeListHead)][0 := EncodeHeader(h')], h', [p] + free, used - {p})
  {
    var h' := h.(freeListHead := p);
    var pages' := pages[p := Relink(pages[p], h.freeListHead)][0 := EncodeHeader(h')];
    var free' := [p] + free;
    TakeDrop(U32(h.freeListHead), pages[p][4..]);
    U32RoundTrip(h.freeListHead);
    assert free'[1..] == free;
    forall i | 0 <= i < |free'| ensures LinkedAt(pages', free', i) {
      if i > 0 {
        assert LinkedAt(pages, free, i - 1) && free'[i + 1..] == free[i..];
        assert free[i - 1] in free;
      }
    }
    forall q ensures q in free' <==> q == p || q in free {
    }
  }

  /** The file after `free_page`: a page beyond its end leaves a part of a page there. */
  function FreedPages(pages: seq<Data>, h: Header, p: nat): seq<Data> {
    SetPage(pages, p, Relink(if p < |pages| then pages[p] else [], h.freeListHead))[0 := EncodeHeader(h.(freeListHead := p))]
  }

  /** A list threaded from a freed page runs through the pages that were free. */
  lemma {:induction false} FreedFollows(pages: seq<Data>, h: Header, free: seq<nat>, used: set<nat>, p: nat, j: nat,
                                        free': seq<nat>, used': set<nat>, i: nat)
    requires FreeListOk(pages, h, free, used) && i <= j < |free| && free[j] == p && p < |pages|
    requires FreeListOk(FreedPages(pages, h, p), h.(freeListHead := p), free', used')
    ensures i + 1 < |free'| && free'[i + 1] == free[i]
  {
    var pages' := FreedPages(pages, h, p);
    assert p in free && free[i] in free;
    assert free' != [] && free'[0] == p;
    if i == 0 {
      assert LinkedAt(pages', free', 0);
      TakeDrop(U32(h.freeListHead), pages[p][4..]);
      U32RoundTrip(h.freeListHead);
    } else {
      FreedFollows(pages, h, free, used, p, j, free', used', i - 1);
      assert LinkedAt(pages', free', i) && LinkedAt(pages, free, i - 1);
      assert free[i - 1] in free;
    }
  }

  /** Freeing a page keeps a free list, whatever it is, if and only if the page was in use: a page
      freed twice makes the list a cycle, one beyond the allocated pages is listed. */
  lemma FreeKeepsListIff(pages: seq<Data>, h: Header, free: seq<nat>, used: set<nat>, p: nat)
    requires FreeListOk(pages, h, free, used) && p >= 1
    ensures (exists free', used' :: FreeListOk(FreedPages(pages, h, p), h.(freeListHead := p), free', used'))
       <==> p in used
  {
    if p in used {
      PutFirst(pages, h, free, used, p);
      assert FreeListOk(FreedPages(pages, h, p), h.(freeListHead := p), [p] + free, used - {p});
    } else {
      forall free', used'
        ensures !FreeListOk(FreedPages(pages, h, p), h.(freeListHead := p), free', used')
      {
        if FreeListOk(FreedPages(pages, h, p), h.(freeListHead := p), free', used') {
          FreedWasFree(pages, h, free, used, p, free', used');
        }
      }
    }
  }

  lemma FreedWasFree(pages: seq<Data>, h: Header, free: seq<nat>, used: set<nat>, p: nat, free': seq<nat>, used': set<nat>)
    requires FreeListOk(pages, h, free, used) && p >= 1
    requires FreeListOk(FreedPages(pages, h, p), h.(freeListHead := p), free', used')
    ensures p in used
  {
    assert |FreedPages(pages, h, p)[p]| == PAGE_SIZE;
    assert free' != [] && free'[0] == p && p in free';
    if p in free {
      var j :| 0 <= j < |free| && free[j] == p;
      FreedFollows(pages, h, free, used, p, j, free', used', j);
    }
  }

  lemma Extend(pages: seq<Data>, h: Header, used: set<nat>, page: Data)
    requires FreeListOk(pages, h, [], used) && h.numPages + 1 < U32_LIMIT && |page| == PAGE_SIZE
    ensures var h' := h.(numPages := h.numPages + 1);
            FreeListOk(SetPage(pages[0 := EncodeHeader(h')], h.numPages, page), h', [], used + {h.numPages})
  {
  }

  lemma WriteKeepsList(pages: seq<Data>, h: Header, free: seq<nat>, used: set<nat>, p: nat, page: Data)
    requires FreeListOk(pages, h, free, used) && p in used && |page| == PAGE_SIZE
    ensures FreeListOk(SetPage(pages, p, page), h, free, used)
  {
    var pages' := SetPage(pages, p, page);
    forall i | 0 <= i < |free| ensures LinkedAt(pages', free, i) {
      assert LinkedAt(pages, free, i) && free[i] in free;
    }
  }

  lemma CountKeepsList(pages: seq<Data>, h: Header, free: seq<nat>, used: set<nat>, count: nat)
    requires FreeListOk(pages, h, free, used) && count < U32_LIMIT
    ensures var h' := h.(docCount := count); FreeListOk(pages[0 := EncodeHeader(h')], h', free, used)
  {
    var pages' := pages[0 := EncodeHeader(h.(docCount := count))];
    forall i | 0 <= i < |free| ensures LinkedAt(pages', free, i) {
      assert LinkedAt(pages, free, i) && free[i] in free;
    }
  }

  // ---------- The storage object ----------

  class Storage {
    var header: Header
    var pages: seq<Data>
    /** The free list in order, and the pages handed out and not freed. */
    ghost var free: seq<nat>
    ghost var used: set<nat>

    ghost predicate Valid()
      reads this
    {
      FreeListOk(pages, header, free, used)
    }

    /** A new file: only a header page. */
    constructor ()
      ensures Valid() && free == [] && used == {} && header == Header(1, PAGE_SIZE, 1, 0, 0)
    {
      var h := Header(1, PAGE_SIZE, 1, 0, 0);
      header, pages := h, [EncodeHeader(h)];
      free, used := [], {};
    }

    /** Opens a file: an empty one gets a header page, else the header comes from the first page. */
    static method Open(contents: seq<Data>, ghost list: seq<nat>, ghost handed: set<nat>, ghost h: Header)
      returns (r: Result<Storage, StorageError>)
      ensures contents == [] ==> r.Ok? && r.value.Valid() && r.value.free == [] && r.value.used == {}
      ensures FreeListOk(contents, h, list, handed) ==>
        r.Ok? && r.value.Valid() && r.value.header == h && r.value.free == list && r.value.used == handed
      ensures r.Ok? ==> fresh(r.value) && (contents != [] ==> r.value.pages == contents)
      ensures contents != [] && |contents[0]| < PAGE_SIZE ==> r == Err(UnexpectedEof)
      ensures contents != [] && |contents[0]| >= PAGE_SIZE ==>
        match DecodeHeader(contents[0][..PAGE_SIZE])
        case Ok(h') => r.Ok? && r.value.header == h'
        case Err(e) => r == Err(e)
    {
      var s := new Storage();
      if contents == [] {
        return Ok(s);
      }
      if |contents[0]| < PAGE_SIZE {
        return Err(UnexpectedEof);
      }
      if HeaderFits(h) {
        HeaderRoundTrip(h);
      }
      var decoded := DecodeHeader(contents[0][..PAGE_SIZE]);
      assert |contents[0]| == PAGE_SIZE ==> contents[0][..PAGE_SIZE] == contents[0];
      if decoded.Err? {
        return Err(decoded.error);
      }
      s.header, s.pages := decoded.value, contents;
      s.free, s.used := list, handed;
      return Ok(s);
    }

    method SyncHeader()
      requires |pages| > 0
      modifies `pages
      ensures pages == old(pages)[0 := EncodeHeader(header)]
    {
      pages := pages[0 := EncodeHeader(header)];
    }

    /** Hands out the first free page, or else a new one. The page count is a 32-bit number that
        wraps around; then the list is lost. */
    method AllocatePage() returns (p: nat)
      requires Valid()
      modifies this
      ensures p !in old(used) && used == old(used) + {p}
      ensures old(free) != [] || old(header.numPages) + 1 < U32_LIMIT ==> Valid()
      ensures old(free) != [] ==> p == old(free)[0] && free == old(free)[1..] && header.numPages == old(header.numPages)
      ensures old(free) == [] ==>
        p == old(header.numPages) && free == [] && header.numPages == (p + 1) % U32_LIMIT
        && pages == SetPage(old(pages)[0 := EncodeHeader(header)], p, Zeros(PAGE_SIZE))
      ensures header.docCount == old(header.docCount)
    {
      hide FreeListOk;
      hide EncodeHeader;
      hide SetPage;
      hide Link;
      HeadOfList(pages, header, free, used);
      if header.freeListHead != 0 {
        TakeFirst(pages, header, free, used);
        p := header.freeListHead;
        var next := Link(pages[p]);
        header := header.(freeListHead := next);
        SyncHeader();
        free, used := free[1..], used + {p};
        return;
      }
      if header.numPages + 1 < U32_LIMIT {
        Extend(pages, header, used, Zeros(PAGE_SIZE));
      }
      p := header.numPages;
      header := header.(numPages := (header.numPages + 1) % U32_LIMIT);
      SyncHeader();
      pages := SetPage(pages, p, Zeros(PAGE_SIZE));
      used := used + {p};
    }

    /** The page is not checked; freeing one that is not in use spoils the list. */
    method FreePage(p: nat)
      modifies this
      ensures header == old(header).(freeListHead := p) && pages == FreedPages(old(pages), old(header), p)
      ensures old(Valid()) && p in old(used) ==> Valid() && free == [p] + old(free) && used == old(used) - {p}
    {
      ghost var good := Valid() && p in used;
      if good {
        PutFirst(pages, header, free, used, p);
      }
      hide FreeListOk;
      pages := SetPage(pages, p, Relink(if p < |pages| then pages[p] else [], header.freeListHead));
      header := header.(freeListHead := p);
      SyncHeader();
      if good {
        free, used := [p] + free, used - {p};
      }
    }

    /** The page is not checked either; beyond the end of the file the gap is filled with zeros. */
    method WritePage(p: nat, data: Data)
      requires |data| == PAGE_SIZE
      modifies `pages
      ensures p < |pages| && pages[p] == data && |pages| == if p < |old(pages)| then |old(pages)| else p + 1
      ensures forall i | 0 <= i < |old(pages)| && i != p ::
        pages[i] == if p < |old(pages)| then old(pages)[i] else Filled(old(pages)[i])
      ensures forall i | |old(pages)| <= i < p :: pages[i] == Zeros(PAGE_SIZE)
      ensures old(Valid()) && p in used ==> Valid()
    {
      if Valid() && p in used {
        WriteKeepsList(pages, header, free, used, p, data);
      }
      pages := SetPage(pages, p, data);
    }

    /** Adds to the document count, saturating at both ends of the 32-bit range. */
    method IncrementDocCount(delta: int)
      requires Valid()
      modifies `header, `pages
      ensures Valid() && header.numPages == old(header.numPages)
      ensures var sum := old(header.docCount) + delta;
              header.docCount == if sum < 0 then 0 else if sum >= U32_LIMIT then U32_LIMIT - 1 else sum
    {
      var sum := header.docCount + delta;
      var count := if sum < 0 then 0 else if sum >= U32_LIMIT then U32_LIMIT - 1 else sum;
      CountKeepsList(pages, header, free, used, count);
      header := header.(docCount := count);
      SyncHeader();
    }

    /** The loop at the start of `compact`: allocates until pages 1 to `pagesNeeded` exist. It
        drains the free list before the file grows, and ends. */
    method ReservePages(pagesNeeded: nat)
      requires Valid() && pagesNeeded + 1 < U32_LIMIT
      modifies this
      ensures Valid() && header.numPages >= pagesNeeded + 1 && old(used) <= used
      ensures old(header.numPages) >= pagesNeeded + 1 ==> header == old(header) && free == old(free)
      ensures old(header.numPages) < pagesNeeded + 1 ==>
        free == [] && header.numPages == pagesNeeded + 1 && forall p :: p in used <==> 1 <= p <= pagesNeeded
    {
      while header.numPages < pagesNeeded + 1
        invariant Valid() && old(used) <= used
        invariant header.numPages <= pagesNeeded + 1 || header.numPages == old(header.numPages)
        invariant header.numPages > old(header.numPages) ==> free == []
        invariant old(header.numPages) >= pagesNeeded + 1 ==> header == old(header) && free == old(free)
        invariant header.numPages >= old(header.numPages)
        decreases pagesNeeded + 1 - header.numPages + |free|
      {
        var p := AllocatePage();
      }
    }
  }
}
