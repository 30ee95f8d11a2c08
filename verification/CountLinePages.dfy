/** The verified-filter listing of count lines: one pass over the cursor, one page out
    (backend/api/count_lines_routes.py). */
module CountLinePages {

  const CURSOR_CAP: nat := 10000

  datatype Page<T> = Page(items: seq<T>, total: nat, totalPages: nat, hasNext: bool, hasPrev: bool)

  /** The projected lines whose review state is the wanted one, in cursor order. */
  function Filtered<T>(lines: seq<T>, project: T -> T, reviewed: T -> bool, wanted: bool): seq<T> {
    if lines == [] then []
    else
      var p, rest := project(lines[|lines| - 1]), Filtered(lines[..|lines| - 1], project, reviewed, wanted);
      if reviewed(p) == wanted then rest + [p] else rest
  }

  /** What is listed are the projected lines with the wanted review state. */
  lemma {:induction false} FilteredExactly<T>(lines: seq<T>, project: T -> T, reviewed: T -> bool, wanted: bool, x: T)
    ensures x in Filtered(lines, project, reviewed, wanted)
            <==> exists i | 0 <= i < |lines| :: project(lines[i]) == x && reviewed(x) == wanted
  {
    if lines != [] {
      var init := lines[..|lines| - 1];
      FilteredExactly(init, project, reviewed, wanted, x);
      assert forall i | 0 <= i < |init| :: init[i] == lines[i];
    }
  }

  /** Listing a cursor in two parts lists the parts one after the other; a single line is listed, as it is
      projected, exactly when its review state is the wanted one. */
  lemma {:induction false} FilteredInOrder<T>(a: seq<T>, b: seq<T>, project: T -> T, reviewed: T -> bool, wanted: bool)
    ensures Filtered(a + b, project, reviewed, wanted)
            == Filtered(a, project, reviewed, wanted) + Filtered(b, project, reviewed, wanted)
    ensures |b| == 1 ==>
              Filtered(b, project, reviewed, wanted)
              == if reviewed(project(b[0])) <==> wanted then [project(b[0])] else []
    decreases |b|
  {
    if b == [] {
      assert a + b == a;
    } else {
      FilteredInOrder(a, b[..|b| - 1], project, reviewed, wanted);
      assert (a + b)[..|a + b| - 1] == a + b[..|b| - 1];
    }
  }

  /** The cursor ends after ten thousand lines. */
  function Capped<T>(lines: seq<T>): (r: seq<T>)
    ensures |r| <= 10000 && r <= lines && (|lines| <= 10000 ==> r == lines)
    ensures |lines| > 10000 ==> |r| == 10000
  {
    if |lines| <= CURSOR_CAP then lines else lines[..CURSOR_CAP]
  }

  function Clamp(x: int, limit: nat): (r: nat)
    ensures r <= limit
  {
    if x < 0 then 0 else if x > limit then limit else x
  }

  /** The elements at positions from, ..., to - 1 that exist. */
  function Between<T>(s: seq<T>, from: int, to: int): seq<T>
    requires from <= to
  {
    s[Clamp(from, |s|)..Clamp(to, |s|)]
  }

  function Skip(page: int, size: nat): int {
    (page - 1) * size
  }

  /** Page `page`, counted from one. */
  function PageSlice<T>(s: seq<T>, page: int, size: nat): seq<T> {
    Between(s, Skip(page, size), Skip(page, size) + size)
  }

  predicate HasNext(total: nat, page: int, size: nat) {
    Skip(page, size) + size < total
  }

  function TotalPages(total: nat, size: nat): nat {
    if size == 0 then 0 else (total + size - 1) / size
  }

  lemma BetweenSnoc<T>(s: seq<T>, x: T, from: int, to: int)
    requires from <= to
    ensures Between(s + [x], from, to) == if from <= |s| < to then Between(s, from, to) + [x] else Between(s, from, to)
  {
  }

  /** The filter loop: it counts every match and keeps those whose number falls on the page. */
  method FilterPage<T>(cursor: seq<T>, project: T -> T, reviewed: T -> bool, wanted: bool, skip: int, limitEnd: int)
    returns (items: seq<T>, total: nat)
    requires skip <= limitEnd
    ensures var all := Filtered(cursor, project, reviewed, wanted);
            items == Between(all, skip, limitEnd) && total == |all|
  {
    total := 0;
    items := [];
    for i := 0 to |cursor|
      invariant total == |Filtered(cursor[..i], project, reviewed, wanted)|
      invariant items == Between(Filtered(cursor[..i], project, reviewed, wanted), skip, limitEnd)
    {
      var p := project(cursor[i]);
      assert cursor[..i + 1][..i] == cursor[..i];
      BetweenSnoc(Filtered(cursor[..i], project, reviewed, wanted), p, skip, limitEnd);
      if reviewed(p) == wanted {
        if skip <= total < limitEnd {
          items := items + [p];
        }
        total := total + 1;
      }
    }
    assert cursor[..|cursor|] == cursor;
  }

  /** `get_count_lines` with a verified filter. */
  method ListPage<T>(lines: seq<T>, project: T -> T, reviewed: T -> bool, wanted: bool, page: int, size: nat)
    returns (r: Page<T>)
    ensures var all := Filtered(Capped(lines), project, reviewed, wanted);
            && r.items == PageSlice(all, page, size)
            && r.total == |all|
            && r.totalPages == TotalPages(|all|, size)
            && (r.hasNext <==> HasNext(|all|, page, size))
            && (r.hasPrev <==> page > 1)
  {
    var skip := Skip(page, size);
    var items, total := FilterPage(Capped(lines), project, reviewed, wanted, skip, skip + size);
    r := Page(items, total, TotalPages(total, size), skip + size < total, page > 1);
  }

  /** Pages 1 to n, one after another. */
  function Pages<T>(s: seq<T>, n: nat, size: nat): seq<T> {
    if n == 0 then [] else Pages(s, n - 1, size) + PageSlice(s, n, size)
  }

  lemma {:induction false} PagesArePrefix<T>(s: seq<T>, n: nat, size: nat)
    ensures Pages(s, n, size) == s[..Clamp(n * size, |s|)]
  {
    if n > 0 {
      PagesArePrefix(s, n - 1, size);
      assert n * size == (n - 1) * size + size;
      assert 0 <= (n - 1) * size;
    }
  }

  lemma PageCount(total: nat, size: nat)
    requires size >= 1
    ensures TotalPages(total, size) * size >= total
    ensures total > 0 ==> (TotalPages(total, size) - 1) * size < total
  {
    var q, rest := (total + size - 1) / size, (total + size - 1) % size;
    assert total + size - 1 == q * size + rest;
    assert (q - 1) * size == q * size - size;
  }

  lemma Products(a: int, b: int, size: nat)
    requires a <= b
    ensures a * size <= b * size
  {
  }

  lemma PageWithinBounds(total: nat, page: int, size: nat)
    requires size >= 1 && 1 <= page <= TotalPages(total, size)
    ensures 0 <= Skip(page, size) < total
  {
    PageCount(total, size);
    Products(page - 1, TotalPages(total, size) - 1, size);
    Products(0, page - 1, size);
  }

  lemma HasNextIff(total: nat, page: int, size: nat)
    requires size >= 1
    ensures HasNext(total, page, size) <==> page < TotalPages(total, size)
  {
    var n: int := TotalPages(total, size);
    PageCount(total, size);
    assert Skip(page, size) + size == page * size;
    if page < n {
      Products(page, n - 1, size);
    } else {
      Products(n, page, size);
    }
  }

  /** For every page size of at least one: the pages from the first to the last, put together, are
      the filtered list without gap or overlap; every one of them is non-empty and none is longer
      than the page size; and there is a next page exactly before the last. */
  lemma PagesPartition<T>(s: seq<T>, size: nat)
    requires size >= 1
    ensures Pages(s, TotalPages(|s|, size), size) == s
    ensures forall page | 1 <= page <= TotalPages(|s|, size) :: 1 <= |PageSlice(s, page, size)| <= size
    ensures forall page: int :: HasNext(|s|, page, size) <==> page < TotalPages(|s|, size)
  {
    PageCount(|s|, size);
    PagesArePrefix(s, TotalPages(|s|, size), size);
    forall page | 1 <= page <= TotalPages(|s|, size) ensures 1 <= |PageSlice(s, page, size)| <= size {
      PageWithinBounds(|s|, page, size);
    }
    forall page: int ensures HasNext(|s|, page, size) <==> page < TotalPages(|s|, size) {
      HasNextIff(|s|, page, size);
    }
  }
}
