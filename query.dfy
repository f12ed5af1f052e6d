/** What the server's store queries do with a result set: select by a
    condition, order by a timestamp descending (`.sort('-field')`), and page it
    (`.skip(s).limit(n)` and `Math.ceil(count / limit)`). */
module Query {
  import opened Wrappers
  import opened Text
  import opened ListOps

  predicate SortedDesc<T>(xs: seq<T>, key: T -> int) {
    forall i, j :: 0 <= i < j < |xs| ==> key(xs[i]) >= key(xs[j])
  }

  /** Inserts `x` into a descending sequence before the first element with a
      smaller key. */
  function InsertDesc<T>(x: T, xs: seq<T>, key: T -> int): (r: seq<T>)
    requires SortedDesc(xs, key)
    ensures SortedDesc(r, key)
    ensures multiset(r) == multiset(xs) + multiset{x}
    ensures |r| == |xs| + 1
    ensures r[0] == x || (xs != [] && r[0] == xs[0])
  {
    if xs == [] || key(x) >= key(xs[0]) then [x] + xs
    else
      var rest := InsertDesc(x, xs[1..], key);
      assert xs == [xs[0]] + xs[1..];
      assert key(xs[0]) >= key(rest[0]);
      [xs[0]] + rest
  }

  /** `.sort('-key')`: a descending arrangement of the same elements. */
  function SortDesc<T>(xs: seq<T>, key: T -> int): (r: seq<T>)
    ensures SortedDesc(r, key)
    ensures multiset(r) == multiset(xs)
  {
    if xs == [] then []
    else
      assert xs == [xs[0]] + xs[1..];
      InsertDesc(xs[0], SortDesc(xs[1..], key), key)
  }

  /** `.limit(n)` on what is left after skipping: 0 means no limit and a
      negative limit acts as its absolute value. */
  function Take<T>(xs: seq<T>, limit: int): (r: seq<T>)
    ensures limit == 0 ==> r == xs
    ensures limit != 0 ==> |r| == (if |xs| < Abs(limit) then |xs| else Abs(limit))
    ensures r == xs[..|r|]
  {
    if limit == 0 || |xs| <= Abs(limit) then xs else xs[..Abs(limit)]
  }

  function Abs(n: int): nat { if n < 0 then -n else n }

  /** `.skip((page - 1) * limit).limit(limit)`; a negative skip is refused by the
      database, which the handler reports as a server error. */
  function Paginate<T>(xs: seq<T>, page: int, limit: int): (r: Result<seq<T>>)
    ensures r.Err? <==> (page - 1) * limit < 0
    ensures r.Ok? && limit > 0 ==> |r.value| <= limit
    ensures r.Ok? ==> var s := (page - 1) * limit;
      s <= |xs| ==> s + |r.value| <= |xs| && r.value == xs[s..s + |r.value|]
    ensures r.Ok? ==> (page - 1) * limit >= |xs| ==> r.value == []
    ensures r.Ok? && (page - 1) * limit <= |xs| ==> var rest := |xs| - (page - 1) * limit;
      |r.value| == if limit == 0 || rest < Abs(limit) then rest else Abs(limit)
    ensures r.Ok? ==> forall x :: x in r.value ==> x in xs
  {
    var skip := (page - 1) * limit;
    if skip < 0 then Err(HttpError(500, "Skip value must be non-negative"))
    else if skip >= |xs| then Ok([])
    else Ok(Take(xs[skip..], limit))
  }

  /** A page of an ordered result keeps its order. */
  lemma PageOfSorted<T>(xs: seq<T>, key: T -> int, page: int, limit: int)
    requires SortedDesc(xs, key)
    ensures Paginate(xs, page, limit).Ok? ==> SortedDesc(Paginate(xs, page, limit).value, key)
  {
  }

  /** The first `n` elements of a descending sequence rank no lower than the
      rest, and the two parts together are the whole. */
  lemma PrefixOutranksRest<T>(xs: seq<T>, key: T -> int, n: nat)
    requires SortedDesc(xs, key) && n <= |xs|
    ensures multiset(xs[..n]) + multiset(xs[n..]) == multiset(xs)
    ensures forall x, y :: x in xs[..n] && y in xs[n..] ==> key(x) >= key(y)
  {
    assert xs == xs[..n] + xs[n..];
    forall x, y | x in xs[..n] && y in xs[n..] ensures key(x) >= key(y) {
      var i :| 0 <= i < n && xs[..n][i] == x;
      var j :| 0 <= j < |xs| - n && xs[n..][j] == y;
      assert xs[i] == x && xs[n + j] == y;
    }
  }

  /** Every element of `top` has at least the key of every element of `rest`. */
  ghost predicate Outranks<T>(top: seq<T>, rest: seq<T>, key: T -> int) {
    forall x, y :: x in top && y in rest ==> key(x) >= key(y)
  }

  /** The first elements of a descending ordering of `whole` outrank every
      element of `whole` left out of them. */
  lemma TopOfSorted<T>(whole: seq<T>, xs: seq<T>, key: T -> int, r: seq<T>)
    requires multiset(xs) == multiset(whole) && SortedDesc(xs, key)
    requires |r| <= |xs| && r == xs[..|r|]
    ensures exists rest: seq<T> :: multiset(r) + multiset(rest) == multiset(whole) && Outranks(r, rest, key)
  {
    var rest := xs[|r|..];
    PrefixOutranksRest(xs, key, |r|);
    assert multiset(r) + multiset(rest) == multiset(whole);
  }

  /** `Math.ceil(count / limit)`; with a zero limit the quotient is not a
      finite number and serialises as `null` (`None`). */
  function TotalPages(count: nat, limit: int): (r: Option<int>)
    ensures r.None? <==> limit == 0
    ensures limit > 0 ==> r.value * limit >= count && (r.value - 1) * limit < count
    ensures limit > 0 ==> r.value >= 0 && (count > 0 ==> r.value >= 1)
  {
    if limit == 0 then None
    else if limit > 0 then Some(CeilDiv(count, limit))
    else Some(-(count / -limit))
  }

  /** Every element on a full page sits at its place in the whole result. */
  lemma {:induction false} PagesCoverResult<T>(xs: seq<T>, limit: int, k: nat)
    requires limit > 0 && k < |xs|
    ensures var page := k / limit + 1;
      Paginate(xs, page, limit).Ok? && k - (page - 1) * limit < |Paginate(xs, page, limit).value|
      && Paginate(xs, page, limit).value[k - (page - 1) * limit] == xs[k]
  {
    var page := k / limit + 1;
    var skip := (page - 1) * limit;
    assert skip == (k / limit) * limit;
    assert skip <= k < skip + limit;
  }

  /** A listing response: one page of the matches, the page count, the page
      asked for and the number of matches. */
  datatype Page<T> = Page(items: seq<T>, totalPages: Option<int>, currentPage: int, total: nat)

  /** `find(query).sort('-key').limit(limit).skip((page - 1) * limit)` with
      `countDocuments(query)`: the matches, newest first, one page of them. */
  function FindPage<T(==,!new)>(xs: seq<T>, p: T -> bool, key: T -> int, page: int, limit: int)
    : (r: Result<Page<T>>)
    ensures r.Err? <==> (page - 1) * limit < 0
    ensures r.Err? ==> r.error.status == 500
    ensures r.Ok? ==>
      && r.value.total == |Select(xs, p)|
      && r.value.totalPages == TotalPages(r.value.total, limit)
      && r.value.currentPage == page
      && (limit > 0 ==> |r.value.items| <= limit)
      && SortedDesc(r.value.items, key)
      && (forall x :: x in r.value.items ==> x in xs && p(x))
    ensures r.Ok? ==> Paginate(SortDesc(Select(xs, p), key), page, limit) == Ok(r.value.items)
  {
    var matching := Select(xs, p);
    var sorted := SortDesc(matching, key);
    match Paginate(sorted, page, limit)
    case Err(e) => Err(e)
    case Ok(shown) =>
      forall x | x in shown ensures x in xs && p(x) {
        assert x in multiset(sorted);
        SelectMembers(xs, p, x);
      }
      PageOfSorted(sorted, key, page, limit);
      Ok(Page(shown, TotalPages(|matching|, limit), page, |matching|))
  }

  /** With a positive limit every element is on some page. */
  lemma OnSomePage<T>(xs: seq<T>, limit: int, x: T)
    requires limit > 0 && x in xs
    ensures exists page :: page >= 1 && Paginate(xs, page, limit).Ok? && x in Paginate(xs, page, limit).value
  {
    var k :| 0 <= k < |xs| && xs[k] == x;
    PagesCoverResult(xs, limit, k);
    var page := k / limit + 1;
    assert x in Paginate(xs, page, limit).value;
  }

  /** With a positive limit every match is shown on some page. */
  lemma EveryMatchOnSomePage<T(!new)>(xs: seq<T>, p: T -> bool, key: T -> int, limit: int, x: T)
    requires limit > 0 && x in xs && p(x)
    ensures exists page :: page >= 1 && FindPage(xs, p, key, page, limit).Ok? &&
                           x in FindPage(xs, p, key, page, limit).value.items
  {
    var sorted := SortDesc(Select(xs, p), key);
    SelectMembers(xs, p, x);
    assert x in multiset(sorted);
    OnSomePage(sorted, limit, x);
    var page :| page >= 1 && Paginate(sorted, page, limit).Ok? && x in Paginate(sorted, page, limit).value;
    assert FindPage(xs, p, key, page, limit).Ok?;
  }
}
