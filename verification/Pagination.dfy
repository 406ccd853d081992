/** `PaginatedList.get_page`: pages of a filtered list, each with the token of the item that
    the next page starts with. */
module Pagination {
  import opened Outcomes
  import opened PyDict

  const DEFAULT_PAGE_SIZE := 50

  function Filtered<E>(list: seq<E>, keep: E -> bool): seq<E> {
    if list == [] then []
    else (if keep(list[0]) then [list[0]] else []) + Filtered(list[1..], keep)
  }

  /** The items that are kept, in their order. */
  lemma {:induction false} FilteredIs<E>(a: seq<E>, b: seq<E>, x: E, keep: E -> bool)
    ensures Filtered(a + b, keep) == Filtered(a, keep) + Filtered(b, keep)
    ensures Filtered([x], keep) == (if keep(x) then [x] else []) && Filtered([], keep) == []
  {
    assert [x][1..] == [];
    if a == [] {
      assert a + b == b;
    } else {
      assert (a + b)[1..] == a[1..] + b;
      FilteredIs(a[1..], b, x, keep);
    }
  }

  /** The page of a token begins at the first item that has it, and else at the beginning. */
  ghost predicate Begins<E>(list: seq<E>, token: E -> string, next: Option<string>, start: nat) {
    if next.Some? && exists i :: 0 <= i < |list| && token(list[i]) == next.value then
      start < |list| && token(list[start]) == next.value && forall i | 0 <= i < start :: token(list[i]) != next.value
    else start == 0
  }

  /** The position of the first item with a token, or the length of the list. */
  function FirstWith<E>(list: seq<E>, token: E -> string, t: string): (i: nat)
    ensures i <= |list|
  {
    Search(list, token, t, 0)
  }

  function Search<E>(list: seq<E>, token: E -> string, t: string, from: nat): (i: nat)
    requires from <= |list|
    ensures from <= i <= |list|
    decreases |list| - from
  {
    if from == |list| || token(list[from]) == t then from else Search(list, token, t, from + 1)
  }

  lemma {:induction false} SearchFinds<E>(list: seq<E>, token: E -> string, t: string, from: nat, i: nat)
    requires from <= i <= |list| && forall j | from <= j < i :: token(list[j]) != t
    requires i < |list| ==> token(list[i]) == t
    ensures Search(list, token, t, from) == i
    decreases |list| - from
  {
    if from < i {
      SearchFinds(list, token, t, from + 1, i);
    }
  }

  lemma {:induction false} SearchIsFirst<E>(list: seq<E>, token: E -> string, from: nat, at: nat)
    requires from <= at < |list|
    ensures var i := Search(list, token, token(list[at]), from); i <= at && token(list[i]) == token(list[at])
    decreases |list| - from
  {
    if token(list[from]) != token(list[at]) {
      SearchIsFirst(list, token, from + 1, at);
    }
  }

  /** Where the page of a token starts: an unknown token starts over. */
  function StartOf<E>(list: seq<E>, token: E -> string, next: Option<string>): (i: nat)
    ensures i < |list| || i == 0
  {
    match next
    case None => 0
    case Some(t) => var i := FirstWith(list, token, t); if i < |list| then i else 0
  }

  /** `list[i]`: negative indices count from the end, others raise. */
  function IndexOf(length: nat, i: int): (at: Option<nat>)
    ensures at.Some? ==> at.value < length
  {
    var at := if i < 0 then length + i else i;
    if 0 <= at < length then Some(at as nat) else None
  }

  /** `list[start:end]`: a negative end counts from the end of the list. */
  function Slice<E>(list: seq<E>, start: nat, end: int): seq<E>
    requires start <= |list|
  {
    var stop := if end < 0 then |list| + end else if end < |list| then end else |list|;
    if start <= stop then list[start..stop] else []
  }

  type Page<E> = (seq<E>, Option<string>)

  function PageFrom<E>(list: seq<E>, token: E -> string, start: nat, size: int): Outcome<Page<E>>
    requires start <= |list|
  {
    if start + size >= |list| then Ok((Slice(list, start, start + size), None))
    else
      match IndexOf(|list|, start + size)
      case None => Err
      case Some(i) => Ok((Slice(list, start, start + size), Some(token(list[i]))))
  }

  /** A page of that size from there, and the token of the item behind it. A negative size goes
      back from the start, and from the end of the list when it gets below zero; what is before
      the beginning raises. */
  ghost predicate IsPage<E>(list: seq<E>, token: E -> string, start: nat, size: int, r: Outcome<Page<E>>)
    requires start <= |list|
  {
    var at := start + size;
    if at >= |list| then r == Ok((list[start..], None))
    else if size >= 0 then r == Ok((list[start..at], Some(token(list[at]))))
    else if at >= 0 then r == Ok(([], Some(token(list[at]))))
    else if |list| + at < 0 then r == Err
    else r == Ok((if start <= |list| + at then list[start..|list| + at] else [], Some(token(list[|list| + at]))))
  }

  lemma PageIs<E>(list: seq<E>, token: E -> string, next: Option<string>, size: int)
    ensures var start := StartOf(list, token, next);
      Begins(list, token, next, start) && IsPage(list, token, start, size, PageFrom(list, token, start, size))
  {
    if next.Some? {
      FirstIs(list, token, next.value, 0);
      var i := FirstWith(list, token, next.value);
      assert i < |list| ==> token(list[i]) == next.value;
    }
    SliceIs(list, StartOf(list, token, next), size);
  }

  lemma SliceIs<E>(list: seq<E>, start: nat, size: int)
    requires start <= |list|
    ensures start + size >= |list| ==> Slice(list, start, start + size) == list[start..]
    ensures size < 0 <= start + size ==> Slice(list, start, start + size) == []
  {
  }

  lemma {:induction false} FirstIs<E>(list: seq<E>, token: E -> string, t: string, from: nat)
    requires from <= |list|
    ensures var i := Search(list, token, t, from);
      && (forall j | from <= j < i :: token(list[j]) != t) && (i < |list| ==> token(list[i]) == t)
    decreases |list| - from
  {
    if from < |list| && token(list[from]) != t { FirstIs(list, token, t, from + 1); }
  }

  lemma OnlyPage<E>(list: seq<E>, token: E -> string, size: int)
    requires |list| <= size
    ensures PageFrom(list, token, StartOf(list, token, None), size) == Ok((list, None))
  {
    assert list[0..|list|] == list;
  }

  /** `get_page`; a page size far below zero raises. */
  method GetPage<E(==)>(list: seq<E>, token: E -> string, next: Option<string>, pageSize: Option<int>, keep: Option<E -> bool>)
    returns (r: Outcome<Page<E>>)
    ensures
      var kept := if keep.Some? then Filtered(list, keep.value) else list;
      var size := if pageSize.Some? then pageSize.value else 50;
      exists start: nat ::
        start <= |kept| && Begins(kept, token, next, start) && IsPage(kept, token, start, size, r)
  {
    var kept := if keep.Some? then Filtered(list, keep.value) else list;
    var size := if pageSize.Some? then pageSize.value else DEFAULT_PAGE_SIZE;
    PageIs(kept, token, next, size);
    if |kept| <= size && next.None? {
      OnlyPage(kept, token, size);
      return Ok((kept, None));
    }
    var start := FindStart(kept, token, next);
    if start + size >= |kept| {
      return Ok((Slice(kept, start, start + size), None));
    }
    var i := IndexOf(|kept|, start + size);
    if i.None? {
      return Err;
    }
    return Ok((Slice(kept, start, start + size), Some(token(kept[i.value]))));
  }

  /** The search for the start item and for its position, as two passes over the list; the
      two agree, although the second one compares items and not tokens. */
  method FindStart<E(==)>(list: seq<E>, token: E -> string, next: Option<string>) returns (start: nat)
    ensures start == StartOf(list, token, next)
  {
    start := 0;
    if next.Some? {
      var i := 0;
      while i < |list| && token(list[i]) != next.value
        invariant i <= |list| && forall j | 0 <= j < i :: token(list[j]) != next.value
      {
        i := i + 1;
      }
      SearchFinds(list, token, next.value, 0, i);
      if i < |list| {
        var item := list[i];
        while list[start] != item
          invariant start <= i
          decreases i - start
        {
          start := start + 1;
        }
        assert token(list[start]) == next.value;
      }
    }
  }

  // ---------------------------------------------------------------- following the tokens

  /** The items collected by `n` requests that follow the tokens from `next`, and the token
      after them; following stops when there is no next token. */
  function Collect<E>(list: seq<E>, token: E -> string, size: int, next: Option<string>, n: nat): Outcome<Page<E>>
    decreases n
  {
    if n == 0 then Ok(([], next))
    else
      var page :- PageFrom(list, token, StartOf(list, token, next), size);
      if page.1.None? then Ok(page)
      else
        var others :- Collect(list, token, size, page.1, n - 1);
        Ok((page.0 + others.0, others.1))
  }

  /** No token is left. */
  predicate Ends<E>(r: Outcome<Page<E>>) {
    r.Ok? && r.value.1.None?
  }

  /** From `start` on, no page boundary carries the token of an earlier item. */
  predicate BoundariesUnique<E>(list: seq<E>, token: E -> string, size: nat, start: nat)
    requires size > 0
    decreases |list| - start
  {
    start < |list| ==>
      FirstWith(list, token, token(list[start])) == start && BoundariesUnique(list, token, size, start + size)
  }

  lemma {:induction false} DistinctTokensAreEnough<E>(list: seq<E>, token: E -> string, size: nat, start: nat)
    requires size > 0 && forall i, j | 0 <= i < j < |list| :: token(list[i]) != token(list[j])
    ensures BoundariesUnique(list, token, size, start)
    decreases |list| - start
  {
    if start < |list| {
      SearchFinds(list, token, token(list[start]), 0, start);
      DistinctTokensAreEnough(list, token, size, start + size);
    }
  }

  function PageCount(length: nat, size: nat): (pages: nat)
    requires size > 0
    ensures pages > 0
    decreases length
  {
    if length <= size then 1 else 1 + PageCount(length - size, size)
  }

  /** A page with a next token, and what is collected after it. */
  lemma OneMorePage<E>(list: seq<E>, token: E -> string, size: nat, next: Option<string>, start: nat, n: nat)
    requires n > 0 && start == StartOf(list, token, next) && start + size < |list|
    ensures
      var others := Collect(list, token, size, Some(token(list[start + size])), n - 1);
      Collect(list, token, size, next, n)
      == if others.Err? then Err else Ok((list[start..start + size] + others.value.0, others.value.1))
  {
  }

  lemma BoundaryIsFound<E>(list: seq<E>, token: E -> string, size: nat, start: nat)
    requires size > 0 && start + size < |list| && BoundariesUnique(list, token, size, start)
    ensures StartOf(list, token, Some(token(list[start + size]))) == start + size
    ensures BoundariesUnique(list, token, size, start + size)
  {
  }

  lemma {:induction false} CollectFrom<E>(list: seq<E>, token: E -> string, size: nat, next: Option<string>, start: nat, n: nat)
    requires size > 0 && start <= |list| && n >= PageCount(|list| - start, size)
    requires StartOf(list, token, next) == start && BoundariesUnique(list, token, size, start)
    ensures Collect(list, token, size, next, n) == Ok((list[start..], None))
    decreases n
  {
    if start + size < |list| {
      BoundaryIsFound(list, token, size, start);
      CollectFrom(list, token, size, Some(token(list[start + size])), start + size, n - 1);
      PageAndRest(list, token, size, next, start, n);
    } else {
      assert list[start..|list|] == list[start..];
    }
  }

  lemma PageAndRest<E>(list: seq<E>, token: E -> string, size: nat, next: Option<string>, start: nat, n: nat)
    requires n > 0 && start == StartOf(list, token, next) && start + size < |list|
    requires Collect(list, token, size, Some(token(list[start + size])), n - 1) == Ok((list[start + size..], None))
    ensures Collect(list, token, size, next, n) == Ok((list[start..], None))
  {
    OneMorePage(list, token, size, next, start, n);
    assert list[start..start + size] + list[start + size..] == list[start..];
  }

  /** Fewer requests leave a token. */
  lemma {:induction false} NotYet<E>(list: seq<E>, token: E -> string, size: nat, next: Option<string>, start: nat, n: nat)
    requires size > 0 && start <= |list| && 0 < n < PageCount(|list| - start, size)
    requires StartOf(list, token, next) == start && BoundariesUnique(list, token, size, start)
    ensures !Ends(Collect(list, token, size, next, n))
    decreases n
  {
    BoundaryIsFound(list, token, size, start);
    if n > 1 {
      NotYet(list, token, size, Some(token(list[start + size])), start + size, n - 1);
    }
    OneMorePage(list, token, size, next, start, n);
  }

  /** A full page, and at least so much after it. */
  lemma FullPage<E>(list: seq<E>, token: E -> string, size: nat, next: Option<string>, start: nat, n: nat, least: int)
    requires n > 0 && start == StartOf(list, token, next) && start + size < |list|
    requires n > 1 ==>
      var r := Collect(list, token, size, Some(token(list[start + size])), n - 1); Ends(r) ==> |r.value.0| >= least
    ensures var r := Collect(list, token, size, next, n); Ends(r) ==> |r.value.0| >= size + least
  {
    OneMorePage(list, token, size, next, start, n);
  }

  /** Requests that come to an end have collected at least what lies after their start. */
  lemma {:induction false} Enough<E>(list: seq<E>, token: E -> string, size: nat, next: Option<string>, n: nat)
    requires n > 0
    ensures var r := Collect(list, token, size, next, n);
      Ends(r) ==> |r.value.0| >= |list| - StartOf(list, token, next)
    decreases n
  {
    var start := StartOf(list, token, next);
    if start + size < |list| {
      if n > 1 {
        Enough(list, token, size, Some(token(list[start + size])), n - 1);
        SearchIsFirst(list, token, 0, start + size);
      }
      FullPage(list, token, size, next, start, n, |list| - (start + size));
    }
  }

  /** A repeated token at a boundary leads back, unless the repeated token comes later. */
  lemma LeadsBack<E>(list: seq<E>, token: E -> string, size: nat, start: nat)
    requires size > 0 && !BoundariesUnique(list, token, size, start)
    ensures start < |list|
    ensures var back := StartOf(list, token, Some(token(list[start])));
      back < start || (back == start && !BoundariesUnique(list, token, size, start + size))
  {
    SearchIsFirst(list, token, 0, start);
  }

  /** And they have collected too much when some token leads back to an earlier item. */
  lemma {:induction false} TooMuch<E>(list: seq<E>, token: E -> string, size: nat, next: Option<string>, start: nat, n: nat)
    requires size > 0 && n > 0 && start < |list| && StartOf(list, token, next) == start
    requires !BoundariesUnique(list, token, size, start + size)
    ensures var r := Collect(list, token, size, next, n); Ends(r) ==> |r.value.0| > |list| - start
    decreases n
  {
    LeadsBack(list, token, size, start + size);
    var more := Some(token(list[start + size]));
    if n > 1 && StartOf(list, token, more) == start + size {
      TooMuch(list, token, size, more, start + size, n - 1);
    } else if n > 1 {
      Enough(list, token, size, more, n - 1);
    }
    FullPage(list, token, size, next, start, n, |list| - (start + size) + 1);
  }

  /** Pages of no or of negative size always have a next token, or raise. */
  lemma {:induction false} NeverEnds<E>(list: seq<E>, token: E -> string, size: int, next: Option<string>, n: nat)
    requires n > 0 && size <= 0 && (size < 0 || list != [])
    ensures !Ends(Collect(list, token, size, next, n))
    decreases n
  {
    var start := StartOf(list, token, next);
    assert start + size < |list|;
    var page := PageFrom(list, token, start, size);
    if n > 1 && page.Ok? {
      NeverEnds(list, token, size, page.value.1, n - 1);
    }
  }

  /** The pages are followed to an end by some number of requests, and are then the list. */
  ghost predicate Complete<E(!new)>(list: seq<E>, token: E -> string, size: int) {
    exists n: nat :: n > 0 && Collect(list, token, size, None, n) == Ok((list, None))
  }

  /** Following tokens from none until none gives exactly the list, in order, if and only if
      the page size is positive and no page boundary repeats an earlier token, or the list is
      empty and the size zero. */
  lemma PagesAreComplete<E(!new)>(list: seq<E>, token: E -> string, size: int)
    ensures Complete(list, token, size)
      <==> if size > 0 then BoundariesUnique(list, token, size, 0) else size == 0 && list == []
  {
    if size > 0 && BoundariesUnique(list, token, size, 0) {
      var n := PageCount(|list|, size);
      CollectFrom(list, token, size, None, 0, n);
      assert list[0..] == list;
      assert n > 0 && Collect(list, token, size, None, n) == Ok((list, None));
    } else if size > 0 {
      assert FirstWith(list, token, token(list[0])) == 0;
      forall n: nat | n > 0 ensures Collect(list, token, size, None, n) != Ok((list, None)) {
        TooMuch(list, token, size, None, 0, n);
      }
    } else if size == 0 && list == [] {
      OnlyPage(list, token, 0);
      assert Collect(list, token, 0, None, 1) == Ok((list, None));
    } else {
      forall n: nat | n > 0 ensures Collect(list, token, size, None, n) != Ok((list, None)) {
        NeverEnds(list, token, size, None, n);
      }
    }
  }

  /** How many requests it takes. */
  lemma PagesAreCounted<E>(list: seq<E>, token: E -> string, size: nat, n: nat)
    requires size > 0 && n > 0 && BoundariesUnique(list, token, size, 0)
    ensures Ends(Collect(list, token, size, None, n)) <==> n >= PageCount(|list|, size)
  {
    if n >= PageCount(|list|, size) {
      CollectFrom(list, token, size, None, 0, n);
    } else {
      NotYet(list, token, size, None, 0, n);
    }
  }

  /** The condition is needed: with one token for two items, every page ends where the next
      one starts again, and following the tokens never ends. */
  lemma {:induction false} RepeatedTokenNeverEnds(t: string, n: nat)
    requires n > 0
    ensures !Ends(Collect([t, t], (x: string) => x, 1, Some(t), n))
    ensures !Ends(Collect([t, t], (x: string) => x, 1, None, n))
  {
    var list, token := [t, t], (x: string) => x;
    assert StartOf(list, token, Some(t)) == 0 && StartOf(list, token, None) == 0;
    if n > 1 {
      RepeatedTokenNeverEnds(t, n - 1);
    }
    OneMorePage(list, token, 1, Some(t), 0, n);
    OneMorePage(list, token, 1, None, 0, n);
  }
}
