/**
 The host page-lock registry. The operating system locks whole pages and does not
 count how often; registrations may share pages. Releasing one registration must
 unlock its pages that no other registration still needs, and only those.
 */
module HostPages {
  import opened Bytes

  /** A pinned allocation the runtime owns, or a range the application registered. */
  datatype Entry = Vacant | Entry(base: nat, size: nat, owned: bool)

  /** First page of a range. */
  function First(e: Entry, page: nat): nat
    requires page > 0 && e.Entry?
  {
    e.base / page
  }

  /** One past the last page: owned mappings start on a page, registrations are rounded outwards. */
  function Last(e: Entry, page: nat): nat
    requires page > 0 && e.Entry?
  {
    if e.owned then First(e, page) + (e.size + page - 1) / page
    else First(e, page) + (e.size + (e.base - e.base / page * page) + page - 1) / page
  }

  predicate Spans(e: Entry, page: nat, p: nat)
    requires page > 0
  {
    e.Entry? && First(e, page) <= p < Last(e, page)
  }

  /** Page `p` belongs to an entry other than number `i`. */
  ghost predicate SpannedElsewhere(es: seq<Entry>, page: nat, i: nat, p: nat)
    requires page > 0
  {
    exists j :: 0 <= j < |es| && j != i && Spans(es[j], page, p)
  }

  ghost predicate Spanned(es: seq<Entry>, page: nat, p: nat)
    requires page > 0
  {
    exists j :: 0 <= j < |es| && Spans(es[j], page, p)
  }

  function Range(lo: nat, hi: nat): (r: set<nat>)
    ensures forall p :: p in r <==> lo <= p < hi
  {
    if lo >= hi then {} else Range(lo, hi - 1) + {hi - 1}
  }

  // ---------------------------------------------------------------------
  // Rounding to pages
  // ---------------------------------------------------------------------

  lemma Quotient(a: nat, page: nat)
    requires page > 0
    ensures a / page * page <= a < a / page * page + page
  {
  }

  /** Rounding down a bound that is a whole number of pages does not cross it. */
  lemma DownStays(a: nat, m: nat, page: nat)
    requires page > 0
    ensures m * page <= a ==> m <= a / page
    ensures a < m * page ==> a / page < m
  {
    Quotient(a, page);
    var q := a / page;
    if q < m { MulMono(q + 1, m, page); } else { MulMono(m, q, page); }
  }

  lemma MulMono(a: nat, b: nat, c: nat)
    requires a <= b
    ensures a * c <= b * c
  {
  }

  /** Rounding up a range that ends at or before a page boundary does not cross it. */
  lemma UpStays(a: nat, m: nat, page: nat)
    requires page > 0 && a <= m * page
    ensures (a + page - 1) / page <= m
  {
    DownStays(a + page - 1, m + 1, page);
    assert (m + 1) * page == m * page + page;
  }

  // ---------------------------------------------------------------------
  // Owned mappings keep their pages to themselves
  // ---------------------------------------------------------------------

  ghost predicate Aligned(e: Entry, page: nat)
    requires page > 0
  {
    e.Entry? && e.owned ==> e.base == First(e, page) * page
  }

  ghost predicate Apart(e: Entry, f: Entry, page: nat)
    requires page > 0
  {
    forall p: nat :: !(Spans(e, page, p) && Spans(f, page, p))
  }

  /** Owned entries start on a page and share no page with any other entry. */
  ghost predicate OwnedApart(es: seq<Entry>, page: nat)
    requires page > 0
  {
    && (forall i :: 0 <= i < |es| ==> Aligned(es[i], page))
    && (forall i, j :: 0 <= i < |es| && 0 <= j < |es| && i != j && es[i].Entry? && es[i].owned ==> Apart(es[i], es[j], page))
  }

  /** Bytes an entry takes up: owned entries count as whole pages. */
  function ByteSpan(e: Entry, page: nat): nat
    requires page > 0 && e.Entry?
  {
    if e.owned then (e.size + page - 1) / page * page else e.size
  }

  /** The test a registration makes against each entry. */
  predicate Overlaps(e: Entry, page: nat, start: nat, size: nat)
    requires page > 0
  {
    e.Entry? && start < e.base + ByteSpan(e, page) && e.base < start + size
  }

  ghost predicate Disjoint(e: Entry, f: Entry, page: nat)
    requires page > 0 && e.Entry? && f.Entry?
  {
    e.base + ByteSpan(e, page) <= f.base || f.base + ByteSpan(f, page) <= e.base
  }

  /** No entry is empty or at address 0, and no two share a byte. */
  ghost predicate Sound(es: seq<Entry>, page: nat)
    requires page > 0
  {
    && (forall i :: 0 <= i < |es| && es[i].Entry? ==> es[i].base > 0 && es[i].size > 0)
    && (forall i, j :: 0 <= i < |es| && 0 <= j < |es| && i != j && es[i].Entry? && es[j].Entry? ==> Disjoint(es[i], es[j], page))
  }

  lemma UpReaches(a: nat, page: nat)
    requires page > 0
    ensures a <= (a + page - 1) / page * page
    ensures a > 0 ==> 0 < (a + page - 1) / page
  {
    Quotient(a + page - 1, page);
    DownStays(a + page - 1, 1, page);
  }

  /** The bytes of an entry lie in its pages, of which there is at least one. */
  lemma BytesInPages(e: Entry, page: nat)
    requires page > 0 && e.Entry? && e.size > 0 && Aligned(e, page)
    ensures First(e, page) * page <= e.base && e.base + ByteSpan(e, page) <= Last(e, page) * page
    ensures First(e, page) < Last(e, page)
  {
    var k := First(e, page);
    Quotient(e.base, page);
    var u := if e.owned then (e.size + page - 1) / page else (e.size + (e.base - k * page) + page - 1) / page;
    UpReaches(e.size, page);
    UpReaches(e.size + (e.base - k * page), page);
    assert (k + u) * page == k * page + u * page;
  }

  /** Entries that share no page share no byte. */
  lemma ApartDisjoint(e: Entry, f: Entry, page: nat)
    requires page > 0 && e.Entry? && f.Entry? && e.size > 0 && f.size > 0
    requires Aligned(e, page) && Aligned(f, page) && Apart(e, f, page)
    ensures Disjoint(e, f, page)
  {
    BytesInPages(e, page);
    BytesInPages(f, page);
    if First(e, page) <= First(f, page) {
      assert Spans(f, page, First(f, page));
      MulMono(Last(e, page), First(f, page), page);
    } else {
      assert Spans(e, page, First(e, page));
      MulMono(Last(f, page), First(e, page), page);
    }
  }

  /** Not overlapping an owned entry by bytes already means sharing no page with it. */
  lemma RegisteredApart(e: Entry, page: nat, start: nat, size: nat)
    requires page > 0 && e.Entry? && e.owned && Aligned(e, page) && !Overlaps(e, page, start, size)
    ensures Apart(e, Entry(start, size, false), page)
  {
    var f := Entry(start, size, false);
    var k := First(e, page);
    var n := (e.size + page - 1) / page;
    assert e.base + n * page == (k + n) * page;
    if start >= e.base + n * page {
      DownStays(start, k + n, page);
    } else {
      var low := start / page;
      Quotient(start, page);
      DownStays(start, k, page);
      if low < k {
        assert k * page == low * page + (k - low) * page;
        UpStays(size + (start - low * page), k - low, page);
      } else {
        EmptyRange(start, size, k, page);
      }
    }
  }

  /** A range that starts at or after a boundary and ends at or before it is empty and lies on the boundary. */
  lemma EmptyRange(start: nat, size: nat, k: nat, page: nat)
    requires page > 0 && k <= start / page && start + size <= k * page
    ensures Last(Entry(start, size, false), page) <= k
  {
    Quotient(start, page);
    MulMono(k, start / page, page);
    assert size == 0 && start == start / page * page;
    assert start / page == k by { DownStays(start, k + 1, page); assert (k + 1) * page == k * page + page; }
    UpStays(0, 0, page);
  }

  // ---------------------------------------------------------------------
  // The registry
  // ---------------------------------------------------------------------

  /** What one look at the other entries finds: how far the cursor is covered, and where the next one starts. */
  ghost predicate Looked(es: seq<Entry>, page: nat, i: nat, n: nat, cursor: nat, end: nat, covered: nat, next: nat)
    requires page > 0 && n <= |es|
  {
    && cursor <= covered && cursor < next <= end
    && (forall j :: 0 <= j < n && j != i && es[j].Entry? && First(es[j], page) <= cursor ==> Last(es[j], page) <= covered)
    && (forall j :: 0 <= j < n && j != i && es[j].Entry? && cursor < First(es[j], page) ==> next <= First(es[j], page))
    && (next < end ==> exists j :: 0 <= j < n && j != i && es[j].Entry? && First(es[j], page) == next)
    && (cursor < covered ==> exists j :: 0 <= j < n && j != i && es[j].Entry? && First(es[j], page) <= cursor && Last(es[j], page) == covered)
  }

  lemma LookedMeans(es: seq<Entry>, page: nat, i: nat, cursor: nat, end: nat, covered: nat, next: nat)
    requires page > 0 && Looked(es, page, i, |es|, cursor, end, covered, next)
    ensures forall p: nat :: cursor <= p < covered ==> SpannedElsewhere(es, page, i, p)
    ensures covered == cursor ==> forall p: nat :: cursor <= p < next ==> !SpannedElsewhere(es, page, i, p)
  {
    forall p: nat | cursor <= p < covered ensures SpannedElsewhere(es, page, i, p) {
      var j :| 0 <= j < |es| && j != i && es[j].Entry? && First(es[j], page) <= cursor && Last(es[j], page) == covered;
      assert Spans(es[j], page, p);
    }
  }

  /** Taking entry `i` away leaves exactly the pages of the others. */
  lemma VacatedSpans(es: seq<Entry>, page: nat, i: nat, p: nat)
    requires page > 0 && i < |es|
    ensures Spanned(es[i := Vacant], page, p) <==> SpannedElsewhere(es, page, i, p)
    ensures Spanned(es, page, p) <==> SpannedElsewhere(es, page, i, p) || Spans(es[i], page, p)
  {
    var v := es[i := Vacant];
    if j :| 0 <= j < |v| && Spans(v[j], page, p) {
      assert j != i && es[j] == v[j];
    }
    if j :| 0 <= j < |es| && j != i && Spans(es[j], page, p) {
      assert v[j] == es[j];
    }
  }

  lemma FilledSpans(es: seq<Entry>, page: nat, i: nat, e: Entry, p: nat)
    requires page > 0 && i < |es| && es[i].Vacant?
    ensures Spanned(es[i := e], page, p) <==> Spanned(es, page, p) || Spans(e, page, p)
  {
    var f := es[i := e];
    if j :| 0 <= j < |f| && Spans(f[j], page, p) {
      assert j != i ==> es[j] == f[j];
    }
    if j :| 0 <= j < |es| && Spans(es[j], page, p) {
      assert f[j] == es[j];
    }
    assert f[i] == e;
  }

  /** `now` is `was` without the entry that starts at `ptr`. */
  ghost predicate Vacated(was: seq<Entry>, now: seq<Entry>, ptr: nat, owned: bool)
  {
    exists i :: 0 <= i < |was| && was[i].Entry? && was[i].base == ptr && was[i].owned == owned && now == was[i := Vacant]
  }

  /** `now` is `was` with `e` in a place that was vacant. */
  ghost predicate Filled(was: seq<Entry>, now: seq<Entry>, e: Entry)
  {
    exists i :: 0 <= i < |was| && was[i].Vacant? && now == was[i := e]
  }

  /** Page `p` is spanned by an entry that starts at `ptr` and by no other. */
  ghost predicate OnlyOf(es: seq<Entry>, page: nat, ptr: nat, p: nat)
    requires page > 0
  {
    exists i: nat :: i < |es| && es[i].Entry? && es[i].base == ptr && Spans(es[i], page, p) && !SpannedElsewhere(es, page, i, p)
  }

  /** A new entry that shares pages only where both are registered ranges keeps owned mappings apart. */
  lemma FilledApart(es: seq<Entry>, page: nat, i: nat, e: Entry)
    requires page > 0 && i < |es| && OwnedApart(es, page) && Aligned(e, page) && e.Entry?
    requires forall j :: 0 <= j < |es| && j != i && es[j].Entry? && (e.owned || es[j].owned) ==> Apart(es[j], e, page)
    ensures OwnedApart(es[i := e], page)
  {
    var f := es[i := e];
    forall j, k | 0 <= j < |f| && 0 <= k < |f| && j != k && f[j].Entry? && f[j].owned ensures Apart(f[j], f[k], page) {
      if j == i && es[k].Entry? {
        assert Apart(es[k], e, page);
      } else if k == i {
        assert Apart(es[j], e, page);
      }
    }
  }

  lemma FilledSound(es: seq<Entry>, page: nat, i: nat, e: Entry)
    requires page > 0 && i < |es| && Sound(es, page) && e.Entry? && e.base > 0 && e.size > 0
    requires forall j :: 0 <= j < |es| && j != i && es[j].Entry? ==> Disjoint(es[j], e, page)
    ensures Sound(es[i := e], page)
  {
  }

  /** An entry of this kind starts at `ptr`. */
  ghost predicate Starts(es: seq<Entry>, ptr: nat, owned: bool)
  {
    exists i :: 0 <= i < |es| && es[i].Entry? && es[i].base == ptr && es[i].owned == owned
  }

  /** Some entry overlaps the range. */
  ghost predicate Taken(es: seq<Entry>, page: nat, start: nat, size: nat)
    requires page > 0
  {
    exists j :: 0 <= j < |es| && Overlaps(es[j], page, start, size)
  }

  /** Entries share no byte, so at most one starts at an address. */
  lemma OneStarts(es: seq<Entry>, page: nat, i: nat, owned: bool)
    requires page > 0 && Sound(es, page) && OwnedApart(es, page) && i < |es| && es[i].Entry?
    ensures forall j :: 0 <= j < |es| && es[j].Entry? && es[j].base == es[i].base ==> j == i
    ensures es[i].owned != owned ==> !Starts(es, es[i].base, owned)
  {
    forall j | 0 <= j < |es| && j != i && es[j].Entry? ensures es[j].base != es[i].base {
      UpReaches(es[i].size, page);
      UpReaches(es[j].size, page);
      assert Disjoint(es[j], es[i], page);
    }
  }

  /** Page `p` is spanned by entry `i` and by no other. */
  ghost predicate Own(es: seq<Entry>, page: nat, i: nat, p: nat)
    requires page > 0 && i < |es|
  {
    Spans(es[i], page, p) && !SpannedElsewhere(es, page, i, p)
  }

  /** What one look means for the pages of entry `i`. */
  lemma LookStep(es: seq<Entry>, page: nat, i: nat, cursor: nat, covered: nat, next: nat)
    requires page > 0 && Sound(es, page) && OwnedApart(es, page) && i < |es| && es[i].Entry?
    requires First(es[i], page) <= cursor < Last(es[i], page)
    requires Looked(es, page, i, |es|, cursor, Last(es[i], page), covered, next)
    ensures cursor <= covered && cursor < next <= Last(es[i], page)
    ensures forall p: nat :: cursor <= p < covered ==> !Own(es, page, i, p)
    ensures covered == cursor ==> !SpannedElsewhere(es, page, i, cursor) && forall p: nat :: cursor <= p < next ==> Own(es, page, i, p)
    ensures next < Last(es[i], page) ==> SpannedElsewhere(es, page, i, next)
  {
    LookedMeans(es, page, i, cursor, Last(es[i], page), covered, next);
    if next < Last(es[i], page) {
      var j :| 0 <= j < |es| && j != i && es[j].Entry? && First(es[j], page) == next;
      BytesInPages(es[j], page);
      assert Spans(es[j], page, next);
    }
  }

  /** `now` is `was` without the own pages of entry `i` below `upto`. */
  ghost predicate Unlocked(now: set<nat>, was: set<nat>, es: seq<Entry>, page: nat, i: nat, upto: nat)
    requires page > 0 && i < |es|
  {
    forall p: nat :: p in now <==> p in was && !(p < upto && Own(es, page, i, p))
  }

  lemma UnlockedOver(now: set<nat>, was: set<nat>, es: seq<Entry>, page: nat, i: nat, from: nat, to: nat)
    requires page > 0 && i < |es| && Unlocked(now, was, es, page, i, from)
    requires from <= to && forall p: nat :: from <= p < to ==> !Own(es, page, i, p)
    ensures Unlocked(now, was, es, page, i, to)
  {
    hide Own;
  }

  lemma UnlockedOn(now: set<nat>, was: set<nat>, es: seq<Entry>, page: nat, i: nat, from: nat, to: nat)
    requires page > 0 && i < |es| && Unlocked(now, was, es, page, i, from)
    requires from <= to && forall p: nat :: from <= p < to ==> Own(es, page, i, p)
    ensures Unlocked(now - Range(from, to), was, es, page, i, to)
  {
    hide Own;
  }

  /** Nothing unlocked at the start of the entry; everything it must at its end. */
  lemma UnlockedEnds(was: set<nat>, now: set<nat>, es: seq<Entry>, page: nat, i: nat)
    requires page > 0 && i < |es| && es[i].Entry?
    ensures Unlocked(was, was, es, page, i, First(es[i], page))
    ensures Unlocked(now, was, es, page, i, Last(es[i], page)) ==> forall p: nat :: p in now <==> p in was && !Own(es, page, i, p)
    ensures forall upto: nat :: Unlocked(now, was, es, page, i, upto) ==>
              (forall p: nat :: p in now ==> p in was) && forall p: nat :: p in was && p !in now ==> Own(es, page, i, p)
  {
  }

  /** Number of separate runs of such pages in [lo, hi). */
  ghost function Runs(es: seq<Entry>, page: nat, i: nat, lo: nat, hi: nat): nat
    requires page > 0 && i < |es|
    decreases hi
  {
    if hi <= lo then 0
    else Runs(es, page, i, lo, hi - 1) +
         if Own(es, page, i, hi - 1) && (hi - 1 == lo || !Own(es, page, i, hi - 2)) then 1 else 0
  }

  lemma {:induction false} RunsGrow(es: seq<Entry>, page: nat, i: nat, lo: nat, mid: nat, hi: nat)
    requires page > 0 && i < |es| && mid <= hi
    ensures Runs(es, page, i, lo, mid) <= Runs(es, page, i, lo, hi)
    decreases hi
  {
    hide Own;
    if mid < hi { RunsGrow(es, page, i, lo, mid, hi - 1); }
  }

  /** Pages spanned elsewhere start no run. */
  lemma {:induction false} RunsOver(es: seq<Entry>, page: nat, i: nat, lo: nat, mid: nat, hi: nat)
    requires page > 0 && i < |es| && lo <= mid <= hi
    requires forall p: nat :: mid <= p < hi ==> !Own(es, page, i, p)
    ensures Runs(es, page, i, lo, hi) == Runs(es, page, i, lo, mid)
    decreases hi
  {
    hide Own;
    if mid < hi { RunsOver(es, page, i, lo, mid, hi - 1); }
  }

  /** A stretch of own pages after a page that is not one is one more run. */
  lemma {:induction false} RunsOn(es: seq<Entry>, page: nat, i: nat, lo: nat, mid: nat, hi: nat)
    requires page > 0 && i < |es| && lo <= mid < hi && (mid == lo || !Own(es, page, i, mid - 1))
    requires forall p: nat :: mid <= p < hi ==> Own(es, page, i, p)
    ensures Runs(es, page, i, lo, hi) == Runs(es, page, i, lo, mid) + 1
    decreases hi
  {
    hide Own;
    if mid < hi - 1 { RunsOn(es, page, i, lo, mid, hi - 1); }
  }

  /** The release of the entry at `ptr` makes an unlock call that is refused. */
  ghost predicate Refused(es: seq<Entry>, page: nat, ptr: nat, failing: set<nat>)
    requires page > 0
  {
    exists i: nat, k: nat :: i < |es| && es[i].Entry? && es[i].base == ptr && k in failing &&
                             k < Runs(es, page, i, First(es[i], page), Last(es[i], page))
  }

  lemma RefusedIs(es: seq<Entry>, page: nat, i: nat, failing: set<nat>)
    requires page > 0 && Sound(es, page) && OwnedApart(es, page) && i < |es| && es[i].Entry?
    ensures Refused(es, page, es[i].base, failing) <==>
            exists k: nat :: k in failing && k < Runs(es, page, i, First(es[i], page), Last(es[i], page))
  {
    OneStarts(es, page, i, true);
    hide Runs;
  }

  /** The five guards of a registration are the two conditions on its rounded range. */
  lemma RangeGuards(ptr: nat, size: nat, page: nat)
    requires page > 0
    ensures
      var offset := ptr - ptr / page * page;
      var locked := (size + offset + page - 1) / page * page;
      && 0 <= offset
      && (RangeOk(ptr, size, page) <==>
            ptr != 0 && size != 0 && size + page - 1 < TWO64 && ptr + size < TWO64 && size + offset + page - 1 < TWO64 &&
            ptr / page * page + locked < TWO64)
  {
    Quotient(ptr, page);
    UpReaches(size + (ptr - ptr / page * page), page);
  }

  /** The first look at a range: not empty, and its end can be computed. */
  predicate Addressed(ptr: nat, size: nat, page: nat)
  {
    ptr > 0 && size > 0 && size + page - 1 < TWO64 && ptr + size < TWO64
  }

  ghost predicate HasVacant(es: seq<Entry>) { exists i :: 0 <= i < |es| && es[i].Vacant? }

  /** A nonempty range whose pages, rounded outwards, can be computed and addressed in 64 bits. */
  predicate RangeOk(ptr: nat, size: nat, page: nat)
    requires page > 0
  {
    && ptr > 0 && size > 0
    && size + (ptr - ptr / page * page) + page - 1 < TWO64
    && ptr / page * page + (size + (ptr - ptr / page * page) + page - 1) / page * page < TWO64
  }

  /** Registered pages that are not locked, after an unlock was refused half-way. */
  ghost function Lacking(es: seq<Entry>, page: nat, locked: set<nat>): iset<nat>
    requires page > 0
  {
    iset p: nat | Spanned(es, page, p) && p !in locked
  }

  /** A successful release takes its own pages off the list of those that lack their lock. */
  lemma ReleasedLacking(es: seq<Entry>, page: nat, i: nat, was: set<nat>, now: set<nat>)
    requires page > 0 && Sound(es, page) && OwnedApart(es, page) && i < |es| && es[i].Entry?
    requires forall p: nat :: p in was ==> Spanned(es, page, p)
    requires forall p: nat :: p in now <==> p in was && !Own(es, page, i, p)
    ensures forall p: nat :: p in now ==> Spanned(es[i := Vacant], page, p)
    ensures Lacking(es[i := Vacant], page, now) == iset p: nat | p in Lacking(es, page, was) && !OnlyOf(es, page, es[i].base, p)
  {
    forall p: nat
      ensures Spanned(es[i := Vacant], page, p) <==> SpannedElsewhere(es, page, i, p)
      ensures Spanned(es, page, p) <==> SpannedElsewhere(es, page, i, p) || Spans(es[i], page, p)
      ensures OnlyOf(es, page, es[i].base, p) <==> Own(es, page, i, p)
    {
      VacatedSpans(es, page, i, p);
      OnlyOfIs(es, page, i, p);
    }
    hide Spanned, SpannedElsewhere, OnlyOf, Spans;
  }

  lemma OnlyOfIs(es: seq<Entry>, page: nat, i: nat, p: nat)
    requires page > 0 && Sound(es, page) && OwnedApart(es, page) && i < |es| && es[i].Entry?
    ensures OnlyOf(es, page, es[i].base, p) <==> Own(es, page, i, p)
  {
    OneStarts(es, page, i, true);
  }

  /** A new entry locks its pages, also those that had lost their lock. */
  lemma EnteredLacking(es: seq<Entry>, page: nat, i: nat, e: Entry, was: set<nat>, now: set<nat>)
    requires page > 0 && i < |es| && es[i].Vacant?
    requires forall p: nat :: p in was ==> Spanned(es, page, p)
    requires forall p: nat :: p in now <==> p in was || Spans(e, page, p)
    ensures forall p: nat :: p in now ==> Spanned(es[i := e], page, p)
    ensures Lacking(es[i := e], page, now) == iset p: nat | p in Lacking(es, page, was) && !Spans(e, page, p)
  {
    forall p: nat ensures Spanned(es[i := e], page, p) <==> Spanned(es, page, p) || Spans(e, page, p) {
      FilledSpans(es, page, i, e, p);
    }
    hide Spanned, Spans;
  }

  datatype Outcome = Ok | NotSupported | Invalid | AlreadyRegistered | NotRegistered | NoMemory | Unknown

  class Registry {
    const page: nat
    const entries: array<Entry>
    var locked: set<nat>            // the pages the operating system holds locked for this registry

    constructor (page: nat, capacity: nat)
      requires page > 0
      ensures this.page == page && fresh(entries) && entries.Length == capacity && Valid() && locked == {}
    {
      this.page := page;
      entries := new Entry[capacity](_ => Vacant);
      locked := {};
    }

    /** Entries share no byte, owned mappings no page, and nothing else is locked: what even a refused unlock leaves. */
    ghost predicate Usable()
      reads this, entries
    {
      && page > 0 && Sound(entries[..], page)
      && (forall p: nat :: p in locked ==> Spanned(entries[..], page, p))
      && OwnedApart(entries[..], page)
    }

    /** The locked pages are the union of the registered spans. */
    ghost predicate Valid()
      reads this, entries
    {
      Usable() && Lacking(entries[..], page, locked) == iset{}
    }

    method FindVacant() returns (i: nat)
      ensures i <= entries.Length && (i < entries.Length ==> entries[i].Vacant?)
      ensures i == entries.Length ==> forall j :: 0 <= j < entries.Length ==> entries[j].Entry?
    {
      i := 0;
      while i < entries.Length && entries[i].Entry?
        invariant i <= entries.Length && forall j :: 0 <= j < i ==> entries[j].Entry?
      {
        i := i + 1;
      }
    }

    /** The entry that starts exactly at `ptr`; an empty one would not be found. */
    method FindExact(ptr: nat) returns (i: nat)
      ensures i <= entries.Length && (i < entries.Length ==> entries[i].Entry? && entries[i].base == ptr)
      ensures i == entries.Length ==>
                forall j :: 0 <= j < entries.Length ==> !(entries[j].Entry? && entries[j].base == ptr && entries[j].size > 0)
    {
      i := 0;
      while i < entries.Length && !(entries[i].Entry? && ptr == entries[i].base && 0 < entries[i].size)
        invariant i <= entries.Length
        invariant forall j :: 0 <= j < i ==> !(entries[j].Entry? && entries[j].base == ptr && entries[j].size > 0)
      {
        i := i + 1;
      }
    }

    /** One pass over the other entries. */
    method Look(i: nat, cursor: nat, end: nat) returns (covered: nat, next: nat)
      requires page > 0 && cursor < end
      ensures Looked(entries[..], page, i, entries.Length, cursor, end, covered, next)
    {
      covered, next := cursor, end;
      for j := 0 to entries.Length
        invariant Looked(entries[..], page, i, j, cursor, end, covered, next)
      {
        if j != i && entries[j].Entry? {
          var first, last := First(entries[j], page), Last(entries[j], page);
          if first <= cursor && last > covered { covered := last; }
          if first > cursor && first < next { next := first; }
        }
      }
    }

    /**
     Sweep over the pages of entry `i`, unlocking the runs no other entry spans. The
     `failing` calls to unlock are refused. There is one call for each run of such
     pages; the sweep succeeds exactly when none of them is refused, and then
     exactly those pages are unlocked.
     */
    method Sweep(i: nat, failing: set<nat>) returns (ok: bool)
      requires page > 0 && i < entries.Length && entries[i].Entry?
      requires Sound(entries[..], page) && OwnedApart(entries[..], page)
      modifies this`locked
      ensures ok ==> forall p: nat :: p in locked <==> p in old(locked) && !Own(entries[..], page, i, p)
      ensures !ok ==> forall p: nat :: p in locked ==> p in old(locked)
      ensures !ok ==> forall p: nat :: p in old(locked) && p !in locked ==> Own(entries[..], page, i, p)
      ensures ok <==> forall k: nat :: k < Runs(entries[..], page, i, First(entries[i], page), Last(entries[i], page)) ==> k !in failing
    {
      var es := entries[..];
      var start, end, calls: nat := First(es[i], page), Last(es[i], page), 0;
      var cursor := start;
      BytesInPages(es[i], page);
      ghost var was := locked;
      UnlockedEnds(was, locked, es, page, i);
      hide Own, SpannedElsewhere, Looked, Runs, Sound, OwnedApart, First, Last, Unlocked;
      while cursor < end
        invariant start <= cursor <= end
        invariant Unlocked(locked, was, es, page, i, cursor)
        invariant calls == Runs(es, page, i, start, cursor) && forall k: nat :: k < calls ==> k !in failing
        invariant cursor == start || cursor == end || SpannedElsewhere(es, page, i, cursor) || !Own(es, page, i, cursor - 1)
      {
        var covered, next := Look(i, cursor, end);
        LookStep(es, page, i, cursor, covered, next);
        if covered > cursor {
          var to := if covered < end then covered else end;
          RunsOver(es, page, i, start, cursor, to);
          UnlockedOver(locked, was, es, page, i, cursor, to);
          cursor := to;
        } else {
          RunsOn(es, page, i, start, cursor, next);
          if calls in failing {
            RunsGrow(es, page, i, start, next, end);
            UnlockedEnds(was, locked, es, page, i);
            return false;
          }
          calls := calls + 1;
          UnlockedOn(locked, was, es, page, i, cursor, next);
          locked := locked - Range(cursor, next);
          cursor := next;
        }
      }
      ok := true;
      UnlockedEnds(was, locked, es, page, i);
    }

    /**
     Release a registration, or an owned allocation, which is then unmapped. It
     succeeds exactly when there is such an entry and the system refuses nothing. A
     refused unlock leaves the entry in place with some of its own pages unlocked;
     releasing it again restores the rest.
     */
    method Release(ptr: nat, owned: bool, failing: set<nat>, unmaps: bool) returns (r: Outcome)
      requires Usable()
      modifies this`locked, entries
      ensures Usable() && (old(Valid()) && r == Ok ==> Valid())
      ensures r == Ok ==> Lacking(entries[..], page, locked) ==
                          iset p: nat | p in old(Lacking(entries[..], page, locked)) && !OnlyOf(old(entries[..]), page, ptr, p)
      ensures r == Ok && (forall p: nat :: p in old(Lacking(entries[..], page, locked)) ==> OnlyOf(old(entries[..]), page, ptr, p)) ==>
                Valid()
      ensures r != Ok ==> forall p: nat :: p in Lacking(entries[..], page, locked) ==>
                p in old(Lacking(entries[..], page, locked)) || OnlyOf(entries[..], page, ptr, p)
      ensures r == Ok ==> (owned && ptr == 0 && entries[..] == old(entries[..])) || Vacated(old(entries[..]), entries[..], ptr, owned)
      ensures r != Ok ==> entries[..] == old(entries[..])
      ensures r != Ok && r != Unknown ==> locked == old(locked)
      ensures forall p: nat :: p in locked ==> p in old(locked)
      ensures forall p: nat :: p in old(locked) && p !in locked ==> OnlyOf(old(entries[..]), page, ptr, p)
      ensures r == Invalid <==> owned && ptr != 0 && !Starts(old(entries[..]), ptr, owned)
      ensures r == NotRegistered <==> !owned && !Starts(old(entries[..]), ptr, owned)
      ensures r == Ok <==> (owned && ptr == 0) ||
                           (Starts(old(entries[..]), ptr, owned) && !Refused(old(entries[..]), page, ptr, failing) && (owned ==> unmaps))
    {
      ghost var es := entries[..];
      if owned && ptr == 0 {
        assert forall p: nat :: !OnlyOf(es, page, 0, p);
        return Ok;
      }
      var i := FindExact(ptr);
      if i == entries.Length || entries[i].owned != owned {
        if i < entries.Length { OneStarts(es, page, i, owned); }
        return if owned then Invalid else NotRegistered;
      }
      assert Starts(es, ptr, owned);
      RefusedIs(es, page, i, failing);
      ghost var was := locked;
      var ok := Sweep(i, failing);
      forall p: nat ensures OnlyOf(es, page, ptr, p) <==> Own(es, page, i, p) {
        OnlyOfIs(es, page, i, p);
      }
      if !ok || (owned && !unmaps) { return Unknown; }
      entries[i] := Vacant;
      assert entries[..] == es[i := Vacant];
      ReleasedLacking(es, page, i, was, locked);
      return Ok;
    }

    /**
     Pin a new mapping. The mapping starts on a page and its pages are nobody else's. Flags
     beyond the three known ones are invalid; of those only portable memory is supported.
     */
    method Alloc(size: nat, flags: nat, base: nat, maps: bool, locks: bool) returns (r: Outcome)
      requires Usable() && base > 0 && base == base / page * page
      requires forall p: nat :: Spans(Entry(base, size, true), page, p) ==> !Spanned(entries[..], page, p)
      modifies this`locked, entries
      ensures Usable() && (old(Valid()) ==> Valid())
      ensures r == Invalid <==> flags > 7
      ensures r == NotSupported <==> 1 < flags <= 7
      ensures r == Ok <==> flags <= 1 && (size == 0 || (HasVacant(old(entries[..])) && maps && locks))
      ensures r == Ok || r == NoMemory || r == Invalid || r == NotSupported
      ensures r == Ok && size > 0 ==> Filled(old(entries[..]), entries[..], Entry(base, size, true))
      ensures r != Ok || size == 0 ==> entries[..] == old(entries[..]) && locked == old(locked)
    {
      if flags > 7 { return Invalid; }
      if flags > 1 { return NotSupported; }
      if size == 0 { return Ok; }
      var i := FindVacant();
      assert i < entries.Length ==> entries[..][i].Vacant?;
      if i == entries.Length || !maps || !locks { return NoMemory; }
      var e := Entry(base, size, true);
      ghost var es := entries[..];
      forall j | 0 <= j < |es| && j != i && es[j].Entry? ensures Apart(es[j], e, page) && Disjoint(es[j], e, page) {
        forall p: nat | Spans(es[j], page, p) ensures !Spans(e, page, p) {
          assert Spanned(es, page, p);
        }
        ApartDisjoint(es[j], e, page);
      }
      assert es[i].Vacant?;
      FilledApart(es, page, i, e);
      FilledSound(es, page, i, e);
      Enter(i, e);
      return Ok;
    }

    /** Store an entry and lock its pages. */
    method Enter(i: nat, e: Entry)
      requires Usable() && i < entries.Length && entries[i].Vacant? && e.Entry?
      requires OwnedApart(entries[..][i := e], page) && Sound(entries[..][i := e], page)
      modifies this`locked, entries
      ensures Usable() && entries[..] == old(entries[..])[i := e]
      ensures Lacking(entries[..], page, locked) == iset p: nat | p in old(Lacking(entries[..], page, locked)) && !Spans(e, page, p)
    {
      ghost var es, was := entries[..], locked;
      locked := locked + Range(First(e, page), Last(e, page));
      entries[i] := e;
      assert entries[..] == es[i := e];
      EnteredLacking(es, page, i, e, was, locked);
    }

    method AnyOverlap(start: nat, size: nat) returns (found: bool)
      requires page > 0
      ensures found <==> Taken(entries[..], page, start, size)
    {
      found := false;
      for j := 0 to entries.Length
        invariant !found && forall k :: 0 <= k < j ==> !Overlaps(entries[k], page, start, size)
      {
        if Overlaps(entries[j], page, start, size) { return true; }
      }
    }

    /**
     Register a range of application memory. Ranges may share pages but not bytes. Flags
     beyond the four known ones are invalid; of those only portable memory is supported.
     */
    method Register(ptr: nat, size: nat, flags: nat, remote: bool, locks: bool) returns (r: Outcome)
      requires Usable() && page < TWO64
      modifies this`locked, entries
      ensures Usable() && (old(Valid()) ==> Valid())
      ensures r == Ok ==> Filled(old(entries[..]), entries[..], Entry(ptr, size, false))
      ensures r == Ok ==> Lacking(entries[..], page, locked) ==
                          iset p: nat | p in old(Lacking(entries[..], page, locked)) && !Spans(Entry(ptr, size, false), page, p)
      ensures r != Ok ==> entries[..] == old(entries[..]) && locked == old(locked)
      ensures r == Invalid <==> remote || flags > 15 || !Addressed(ptr, size, page) || (flags <= 1 && !RangeOk(ptr, size, page))
      ensures r == NotSupported <==> !remote && Addressed(ptr, size, page) && 1 < flags <= 15
      ensures r == AlreadyRegistered <==>
                !remote && flags <= 1 && RangeOk(ptr, size, page) && Taken(old(entries[..]), page, ptr, size)
      ensures r == Ok <==> !remote && flags <= 1 && RangeOk(ptr, size, page) && !Taken(old(entries[..]), page, ptr, size) &&
                           HasVacant(old(entries[..])) && locks
    {
      ghost var es := entries[..];
      var most := TWO64 - 1;
      RangeGuards(ptr, size, page);
      if ptr == 0 || size == 0 || flags > 15 || size > most - (page - 1) || ptr > most - size || remote { return Invalid; }
      if flags > 1 { return NotSupported; }
      var lockStart := ptr / page * page;
      var offset := ptr - lockStart;
      if size > most - offset - (page - 1) { return Invalid; }
      if lockStart > most - (size + offset + page - 1) / page * page { return Invalid; }
      var found := AnyOverlap(ptr, size);
      if found { return AlreadyRegistered; }
      var i := FindVacant();
      assert i < entries.Length ==> es[i].Vacant?;
      if i == entries.Length || !locks { return NoMemory; }
      var e := Entry(ptr, size, false);
      forall j | 0 <= j < |es| && j != i && es[j].Entry?
        ensures Disjoint(es[j], e, page) && (es[j].owned ==> Apart(es[j], e, page))
      {
        assert !Overlaps(es[j], page, ptr, size);
        if es[j].owned { RegisteredApart(es[j], page, ptr, size); }
      }
      FilledApart(es, page, i, e);
      FilledSound(es, page, i, e);
      Enter(i, e);
      return Ok;
    }
  }
}
