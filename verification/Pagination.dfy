/**
 Pages: `PaginateList` of pkg/stores/partition/listprocessor/processor.go, and the LIMIT, OFFSET and
 continue token of pkg/sqlcache/informer/listoption_indexer.go. Go ints have 64 bits and wrap around.
 */
module Pagination {
  import opened Prelude

  const TWO_63: int := 0x8000_0000_0000_0000

  predicate Int64(n: int) { -TWO_63 <= n < TWO_63 }

  function Wrap(n: int): (w: int)
    ensures -0x8000_0000_0000_0000 <= w < 0x8000_0000_0000_0000 && (n - w) % 0x1_0000_0000_0000_0000 == 0
    ensures Int64(n) ==> w == n
  {
    (n + TWO_63) % (2 * TWO_63) - TWO_63
  }

  /** How many pages; the length is not negative and the size positive, so `/` and `%` are Go's. */
  function Pages(length: nat, size: int): nat
    requires size > 0
  {
    length / size + if length % size != 0 then 1 else 0
  }

  /** Where the page starts, without wrap-around. */
  function Start(page: int, size: int): int { if page < 1 then 0 else size * (page - 1) }

  function Offset(page: int, size: int): int { Wrap(Start(page, size)) }

  /** None when slicing panics. */
  function PaginateList<T>(list: seq<T>, page: int, size: int): Option<(seq<T>, nat)> {
    if size <= 0 then Some((list, 0))
    else
      var pages := Pages(|list|, size);
      var offset := Offset(page, size);
      if offset > |list| then Some(([], pages))
      else if Wrap(offset + size) > |list| then if offset < 0 then None else Some((list[offset..], pages))
      else if !(0 <= offset <= Wrap(offset + size)) then None
      else Some((list[offset..Wrap(offset + size)], pages))
  }

  /** The LIMIT and OFFSET of a query; 0 when there is none. */
  datatype Window = Window(limit: int, offset: int)

  function WindowOf(page: int, size: int): Window {
    var offset := Offset(page, size);
    Window(if size > 0 then size else 0, if offset > 0 then offset else 0)
  }

  /** Rows selected by LIMIT and OFFSET. An OFFSET without a LIMIT is a syntax error: None. */
  function Select<T>(list: seq<T>, w: Window): Option<seq<T>> {
    if w.limit <= 0 then if w.offset > 0 then None else Some(list)
    else
      var from := if w.offset < 0 then 0 else if w.offset > |list| then |list| else w.offset;
      Some(if from + w.limit > |list| then list[from..] else list[from..from + w.limit])
  }

  /** The token of a query that read `items` of `total` rows. */
  function Token(w: Window, items: nat, total: nat): Option<int> {
    if w.limit > 0 && Wrap(w.offset + items) < total then Some(Wrap(w.offset + w.limit)) else None
  }

  // ----- Agreement -----

  predicate Fits(page: int, size: int) { Int64(Start(page, size)) }

  lemma StartSign(page: int, size: int)
    ensures size > 0 ==> Start(page, size) >= 0
    ensures size <= 0 ==> Start(page, size) <= 0
  {
    if page >= 1 {
      if size > 0 {
        assert size * (page - 1) >= 0;
      } else {
        assert (-size) * (page - 1) >= 0;
      }
    }
  }

  /** Lists are far shorter than 2^62. */
  predicate Short<T>(list: seq<T>) { |list| < TWO_63 / 2 }

  /** The slice a page stands for. */
  function PageOf<T>(list: seq<T>, start: nat, size: int): seq<T>
    requires size > 0
  {
    var from := if start > |list| then |list| else start;
    if from + size > |list| then list[from..] else list[from..from + size]
  }

  /** The wrapped arithmetic stays where a slice and an OFFSET make sense. */
  predicate Safe(length: nat, page: int, size: int) {
    var offset := Offset(page, size);
    if size <= 0 then offset <= 0
    else offset > length || (0 <= offset && Int64(offset + size))
  }

  /** Both paths return the same slice, without failing, if and only if the arithmetic is safe. */
  lemma SameSliceIff<T>(list: seq<T>, page: int, size: int)
    requires |list| < TWO_63 && Int64(size)
    ensures PaginateList(list, page, size).Some?
            && Select(list, WindowOf(page, size)) == Some(PaginateList(list, page, size).value.0)
            <==> Safe(|list|, page, size)
  {
    hide Offset, Wrap, Pages;
    var offset := Offset(page, size);
    if size > 0 && offset <= |list| {
      OffsetRange(page, size);
      SumWrap(offset, size, |list|);
    }
    assert list[|list|..] == [];
  }

  lemma OffsetRange(page: int, size: int)
    ensures Int64(Offset(page, size))
  {
  }

  lemma SumWrap(offset: int, size: int, length: nat)
    requires Int64(offset) && 0 < size < TWO_63 && offset <= length < TWO_63
    ensures Int64(offset + size) ==> Wrap(offset + size) == offset + size
    ensures !Int64(offset + size) ==> Wrap(offset + size) < offset
  {
    if !Int64(offset + size) {
      assert (offset + size + TWO_63) % (2 * TWO_63) == offset + size + TWO_63 - 2 * TWO_63;
    }
  }

  /** It is safe whenever the start of the page itself does not overflow, and the slice is then the
      page one expects. */
  lemma SameSlice<T>(list: seq<T>, page: int, size: int)
    requires Short(list) && Int64(size) && Fits(page, size)
    ensures Safe(|list|, page, size)
    ensures PaginateList(list, page, size).Some?
    ensures Select(list, WindowOf(page, size)) == Some(PaginateList(list, page, size).value.0)
    ensures Start(page, size) >= 0 || size <= 0
    ensures PaginateList(list, page, size).value.0 ==
            if size <= 0 then list else PageOf(list, Start(page, size), size)
  {
    hide Start, Wrap, Pages, Select, WindowOf;
    StartSign(page, size);
    var start := Start(page, size);
    assert Offset(page, size) == start by { WrapFits(start); }
    if size > 0 {
      SizeBound(page, size);
      if start <= |list| {
        WrapFits(start + size);
      }
    }
    SameSliceIff(list, page, size);
  }

  lemma WrapFits(n: int)
    requires Int64(n)
    ensures Wrap(n) == n
  {
  }

  lemma SizeBound(page: int, size: int)
    requires size > 0
    ensures Start(page, size) == 0 || Start(page, size) >= size
  {
    if page > 1 {
      assert size * (page - 1) == size + size * (page - 2);
      assert size * (page - 2) >= 0;
    }
  }

  /** A start that wraps to a negative offset makes slicing panic; the SQL path starts over. */
  lemma OverflowStartsOver<T>(list: seq<T>, page: int, size: int)
    requires Int64(size) && size > 0 && Offset(page, size) < 0 && |list| < TWO_63
    ensures PaginateList(list, page, size).None?
    ensures Select(list, WindowOf(page, size)) == Select(list, WindowOf(1, size))
  {
    hide Wrap, Pages;
    assert Start(1, size) == 0;
    WrapFits(0);
    SumWrap(Offset(page, size), size, |list|);
  }

  /** So does page 2^32 + 1 of pages of 2^31 objects, for every list. */
  lemma OverflowWitness<T>(list: seq<T>)
    requires |list| < TWO_63
    ensures var page, size := 0x1_0000_0001, 0x8000_0000;
            && !Safe(|list|, page, size) && PaginateList(list, page, size).None?
            && Select(list, WindowOf(page, size)) == Select(list, WindowOf(1, size))
  {
    hide Pages, Select;
    assert Start(0x1_0000_0001, 0x8000_0000) == TWO_63;
    OverflowStartsOver(list, 0x1_0000_0001, 0x8000_0000);
  }

  // ----- Pages cover the list -----

  lemma DivMod(n: nat, size: int)
    requires size > 0
    ensures n == size * (n / size) + n % size && 0 <= n % size < size
  {
  }

  /** The number of pages that is returned with a page is the least that holds the list; without a size it is 0. */
  lemma PageCount<T>(list: seq<T>, page: int, size: int)
    requires PaginateList(list, page, size).Some?
    ensures var pages := PaginateList(list, page, size).value.1;
            if size <= 0 then pages == 0
            else |list| <= pages * size && (pages > 0 ==> (pages - 1) * size < |list|)
  {
    if size > 0 {
      PagesCeiling(|list|, size);
    }
  }

  /** The number of pages is the ceiling of the quotient. */
  lemma PagesCeiling(length: nat, size: int)
    requires size > 0
    ensures (Pages(length, size) - 1) * size < length <= Pages(length, size) * size
            || (length == 0 && Pages(length, size) == 0)
  {
    var q := length / size;
    DivMod(length, size);
    assert q * size == size * q;
    assert (q + 1) * size == q * size + size;
    assert (q - 1) * size == q * size - size;
    if length == 0 {
      assert q == 0 by { ZeroDivided(size); }
    }
  }

  lemma ZeroDivided(size: int)
    requires size > 0
    ensures 0 / size == 0 && 0 % size == 0
  {
  }

  function FirstPages<T>(list: seq<T>, size: int, n: nat): seq<T>
    requires size > 0
  {
    if n == 0 then [] else FirstPages(list, size, n - 1) + PageOf(list, Start(n, size), size)
  }

  function Min(a: int, b: int): int { if a < b then a else b }

  lemma {:induction false} FirstPagesAre<T>(list: seq<T>, size: int, n: nat)
    requires size > 0
    ensures n * size >= 0
    ensures FirstPages(list, size, n) == list[..Min(n * size, |list|)]
  {
    if n > 0 {
      FirstPagesAre(list, size, n - 1);
      assert n * size == (n - 1) * size + size;
      assert Start(n, size) == (n - 1) * size;
    } else {
      assert n * size == 0;
    }
  }

  lemma PageNonEmpty<T>(list: seq<T>, size: int, p: int)
    requires size > 0 && 1 <= p <= Pages(|list|, size)
    ensures 0 <= Start(p, size) < |list|
  {
    hide Pages;
    var pages := Pages(|list|, size);
    PagesCeiling(|list|, size);
    StartSign(p, size);
    assert (pages - 1) * size == size * (p - 1) + size * (pages - p);
    assert size * (pages - p) >= 0;
  }

  /** Pages 1 to `pages` concatenate to the list, and every one of them is non-empty. */
  lemma PagesConcatenate<T>(list: seq<T>, size: int)
    requires size > 0
    ensures FirstPages(list, size, Pages(|list|, size)) == list
    ensures forall p :: 1 <= p <= Pages(|list|, size) ==> Start(p, size) >= 0 && PageOf(list, Start(p, size), size) != []
  {
    hide Pages, FirstPages, Start;
    var pages := Pages(|list|, size);
    PagesCeiling(|list|, size);
    FirstPagesAre(list, size, pages);
    assert list[..|list|] == list;
    forall p | 1 <= p <= pages ensures Start(p, size) >= 0 && PageOf(list, Start(p, size), size) != [] {
      PageNonEmpty(list, size, p);
    }
  }

  /** Pages before the first are the first, on both paths. */
  lemma BeforeFirstPage<T>(list: seq<T>, page: int, size: int)
    requires page < 1
    ensures PaginateList(list, page, size) == PaginateList(list, 1, size)
    ensures WindowOf(page, size) == WindowOf(1, size)
  {
    assert size * (1 - 1) == 0;
  }

  // ----- Continue tokens -----

  /** A token is returned if and only if an object lies beyond the returned page; it is the position
      of the first such object, where the next page starts. */
  lemma TokenIff<T>(list: seq<T>, page: int, size: int)
    requires Short(list) && Int64(size) && Fits(page, size)
    ensures Select(list, WindowOf(page, size)).Some?
    ensures var w := WindowOf(page, size);
            var token := Token(w, |Select(list, w).value|, |list|);
            && (token.Some? <==> size > 0 && Start(page, size) + size < |list|)
            && (token.Some? ==> token.value == Start(page, size) + size)
            && (token.Some? && page >= 1 ==> token.value == Start(page + 1, size))
  {
    SameSlice(list, page, size);
    hide Wrap, Select, PaginateList, Pages, Safe, Start;
    var start := Start(page, size);
    if size > 0 {
      WrapFits(start);
      if page >= 1 {
        NextStart(page, size);
      }
      TokenOf(list, start, size);
    }
  }

  lemma NextStart(page: int, size: int)
    requires page >= 1
    ensures Start(page + 1, size) == Start(page, size) + size
  {
    assert size * page == size * (page - 1) + size;
  }

  lemma TokenOf<T>(list: seq<T>, start: nat, size: int)
    requires size > 0 && Short(list) && Int64(start) && Int64(size)
    ensures var token := Token(Window(size, start), |PageOf(list, start, size)|, |list|);
            && (token.Some? <==> start + size < |list|)
            && (token.Some? ==> token.value == start + size)
  {
    hide Wrap;
    if start > |list| {
      assert Wrap(start + 0) == start;
    } else if start + size > |list| {
      assert Wrap(|list|) == |list|;
    } else {
      assert Wrap(start + size) == start + size;
    }
  }
}
