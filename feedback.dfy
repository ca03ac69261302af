/**
 * Feedback records and the listing query shared by `FeedBackService.GetAllAsync`
 * and `FeedBackController.GetAllFeedback`: two optional `Where` filters,
 * `Skip((page - 1) * pageSize).Take(pageSize)`, and the page count.
 */
module Feedback {
  import opened Common
  import opened Text

  /** `FeedBack`: one submitted feedback record. */
  datatype FeedBack = FeedBack(id: Guid, email: string, message: string, rating: Int32, submittedAt: Time)

  function Min(a: int, b: int): int
  {
    if a <= b then a else b
  }

  /** No two records share an id (the table's primary key). */
  predicate UniqueIds(rows: seq<FeedBack>)
  {
    forall i, j :: 0 <= i < j < |rows| ==> rows[i].id != rows[j].id
  }

  /** `DbSet.Find`: the record with primary key `id`, if there is one. */
  function FindById(rows: seq<FeedBack>, id: Guid): (r: Option<FeedBack>)
    ensures r.Some? ==> r.value in rows && r.value.id == id
    ensures r.None? <==> forall f | f in rows :: f.id != id
  {
    if rows == [] then None
    else if rows[0].id == id then Some(rows[0])
    else FindById(rows[1..], id)
  }

  /** `Enumerable.Where`: the elements that pass `keep`, in their original order. */
  function Where(s: seq<FeedBack>, keep: FeedBack -> bool): (r: seq<FeedBack>)
    ensures |r| <= |s|
    ensures forall x :: x in r <==> x in s && keep(x)
  {
    if s == [] then []
    else
      assert s == [s[0]] + s[1..];
      (if keep(s[0]) then [s[0]] else []) + Where(s[1..], keep)
  }

  /** `Where` keeps every element that passes `keep` as often as it occurs, and drops every other. */
  lemma {:induction false} WhereCount(s: seq<FeedBack>, keep: FeedBack -> bool)
    ensures forall x :: multiset(Where(s, keep))[x] == if keep(x) then multiset(s)[x] else 0
  {
    if s != [] {
      WhereCount(s[1..], keep);
      assert s == [s[0]] + s[1..];
      assert multiset(s) == multiset{s[0]} + multiset(s[1..]);
      var head := if keep(s[0]) then [s[0]] else [];
      assert multiset(Where(s, keep)) == multiset(head) + multiset(Where(s[1..], keep));
    }
  }

  /** `Where` distributes over concatenation, so it keeps the relative order of what it keeps. */
  lemma {:induction false} WhereAppend(a: seq<FeedBack>, b: seq<FeedBack>, keep: FeedBack -> bool)
    ensures Where(a + b, keep) == Where(a, keep) + Where(b, keep)
  {
    if a == [] {
      assert a + b == b;
    } else {
      assert (a + b)[1..] == a[1..] + b;
      WhereAppend(a[1..], b, keep);
    }
  }

  /** Keeping only unique ids: a subsequence of a table with unique ids has unique ids. */
  lemma {:induction false} WhereKeepsUniqueIds(s: seq<FeedBack>, keep: FeedBack -> bool)
    requires UniqueIds(s)
    ensures UniqueIds(Where(s, keep))
  {
    if s != [] {
      var tail := s[1..];
      assert UniqueIds(tail) by {
        forall i, j | 0 <= i < j < |tail| ensures tail[i].id != tail[j].id {
          assert tail[i] == s[i + 1] && tail[j] == s[j + 1];
        }
      }
      WhereKeepsUniqueIds(tail, keep);
      var rest := Where(tail, keep);
      if keep(s[0]) {
        forall f | f in rest ensures f.id != s[0].id {
          var k :| 0 <= k < |tail| && tail[k] == f;
          assert s[k + 1] == f;
        }
        PrependKeepsUniqueIds(s[0], rest);
      } else {
        assert Where(s, keep) == rest;
      }
    }
  }

  /** A record whose id is not in a table with unique ids can go in front of it. */
  lemma PrependKeepsUniqueIds(f: FeedBack, rest: seq<FeedBack>)
    requires UniqueIds(rest) && forall g | g in rest :: g.id != f.id
    ensures UniqueIds([f] + rest)
  {
    var s := [f] + rest;
    forall i, j | 0 <= i < j < |s| ensures s[i].id != s[j].id {
      assert s[j] == rest[j - 1];
      if i > 0 {
        assert s[i] == rest[i - 1];
      }
    }
  }

  /** In a table with unique ids a record occurs at most once, and it is the only one with its id. */
  lemma {:induction false} UniqueIdsSingle(rows: seq<FeedBack>, f: FeedBack, g: FeedBack)
    requires UniqueIds(rows) && f in rows && g in rows && f.id == g.id
    ensures f == g
    ensures multiset(rows)[f] == 1
  {
    var i :| 0 <= i < |rows| && rows[i] == f;
    var j :| 0 <= j < |rows| && rows[j] == g;
    assert i == j;
    assert rows == rows[..i] + [f] + rows[i + 1..];
    assert f !in rows[..i];
    assert f !in rows[i + 1..];
  }

  /** The filter `f => f.Id != id`. */
  function IdIsNot(id: Guid): FeedBack -> bool
  {
    (f: FeedBack) => f.id != id
  }

  /** `DbSet.Remove` of the record with primary key `id`. */
  function RemoveById(rows: seq<FeedBack>, id: Guid): seq<FeedBack>
  {
    Where(rows, IdIsNot(id))
  }

  /**
   * Removing a present id takes out exactly that one record, keeps every
   * other record in its order, and keeps the ids unique.
   */
  lemma RemoveExactlyOne(rows: seq<FeedBack>, id: Guid)
    requires UniqueIds(rows) && FindById(rows, id).Some?
    ensures multiset(RemoveById(rows, id)) == multiset(rows) - multiset{FindById(rows, id).value}
    ensures |RemoveById(rows, id)| == |rows| - 1
    ensures UniqueIds(RemoveById(rows, id))
  {
    var f := FindById(rows, id).value;
    var r := RemoveById(rows, id);
    WhereCount(rows, IdIsNot(id));
    forall x ensures multiset(r)[x] == (multiset(rows) - multiset{f})[x] {
      if x.id == id && x in rows {
        UniqueIdsSingle(rows, x, f);
      }
    }
    assert multiset(r) == multiset(rows) - multiset{f};
    assert |multiset(r)| == |multiset(rows)| - 1;
    WhereKeepsUniqueIds(rows, IdIsNot(id));
  }

  /** `Where` over elements that all pass `keep` returns them unchanged. */
  lemma {:induction false} WhereAllPass(s: seq<FeedBack>, keep: FeedBack -> bool)
    requires forall x | x in s :: keep(x)
    ensures Where(s, keep) == s
  {
    if s != [] {
      assert s == [s[0]] + s[1..];
      WhereAllPass(s[1..], keep);
    }
  }

  /** A stretch of the table in which no record has id `id` survives removal unchanged. */
  lemma WithoutIdSurvives(rows: seq<FeedBack>, id: Guid, lo: nat, hi: nat)
    requires lo <= hi <= |rows| && forall k | lo <= k < hi :: rows[k].id != id
    ensures Where(rows[lo..hi], IdIsNot(id)) == rows[lo..hi]
  {
    var part := rows[lo..hi];
    forall x | x in part ensures IdIsNot(id)(x) {
      var k :| 0 <= k < |part| && part[k] == x;
      assert rows[lo + k] == x;
    }
    WhereAllPass(part, IdIsNot(id));
  }

  /**
   * Removing the record at index `i` leaves the records before it and the
   * records after it, in their order.
   */
  lemma RemoveKeepsOrder(rows: seq<FeedBack>, id: Guid, i: nat)
    requires UniqueIds(rows) && i < |rows| && rows[i].id == id
    ensures RemoveById(rows, id) == rows[..i] + rows[i + 1..]
  {
    var keep := IdIsNot(id);
    var before, after := rows[..i], rows[i + 1..];
    var upTo := before + [rows[i]];
    assert rows == upTo + after;
    WithoutIdSurvives(rows, id, 0, i);
    assert rows[0..i] == before;
    WithoutIdSurvives(rows, id, i + 1, |rows|);
    assert rows[i + 1..|rows|] == after;
    assert Where([rows[i]], keep) == [];
    WhereAppend(before, [rows[i]], keep);
    assert Where(upTo, keep) == before;
    WhereAppend(upTo, after, keep);
  }

  /** Appending a record whose id is absent keeps the ids unique. */
  lemma AppendFreshKeepsUniqueIds(rows: seq<FeedBack>, f: FeedBack)
    requires UniqueIds(rows) && FindById(rows, f.id).None?
    ensures UniqueIds(rows + [f])
  {
    var s := rows + [f];
    forall i, j | 0 <= i < j < |s| ensures s[i].id != s[j].id {
      if j == |rows| {
        assert s[i] in rows;
      }
    }
  }

  /** The filter `f => f.Rating == rating`. */
  function HasRating(rating: Int32): FeedBack -> bool
  {
    (f: FeedBack) => f.rating == rating
  }

  /** The filter `f => f.Email.Contains(email)`. */
  function EmailContains(email: string): FeedBack -> bool
  {
    (f: FeedBack) => Contains(f.email, email)
  }

  /** A record passes the listing's filters: the rating if one is given, the address fragment if non-empty. */
  predicate Matches(f: FeedBack, rating: Option<Int32>, email: Option<string>)
  {
    && (rating.Some? ==> f.rating == rating.value)
    && (email.Some? && email.value != "" ==> Contains(f.email, email.value))
  }

  /** The query after its two conditional `Where` clauses. */
  function Filtered(rows: seq<FeedBack>, rating: Option<Int32>, email: Option<string>): (r: seq<FeedBack>)
    ensures forall x :: multiset(r)[x] == if Matches(x, rating, email) then multiset(rows)[x] else 0
    ensures forall x :: x in r <==> x in rows && Matches(x, rating, email)
  {
    var byRating := if rating.Some? then Where(rows, HasRating(rating.value)) else rows;
    assert forall x :: multiset(byRating)[x] == if rating.Some? && x.rating != rating.value then 0 else multiset(rows)[x] by {
      if rating.Some? {
        WhereCount(rows, HasRating(rating.value));
      }
    }
    if email.Some? && email.value != "" then
      WhereCount(byRating, EmailContains(email.value));
      Where(byRating, EmailContains(email.value))
    else byRating
  }

  /** Filtering distributes over concatenation: the result keeps store order. */
  lemma FilteredAppend(a: seq<FeedBack>, b: seq<FeedBack>, rating: Option<Int32>, email: Option<string>)
    ensures Filtered(a + b, rating, email) == Filtered(a, rating, email) + Filtered(b, rating, email)
  {
    var byRatingA := if rating.Some? then Where(a, HasRating(rating.value)) else a;
    var byRatingB := if rating.Some? then Where(b, HasRating(rating.value)) else b;
    if rating.Some? {
      WhereAppend(a, b, HasRating(rating.value));
    }
    if email.Some? && email.value != "" {
      WhereAppend(byRatingA, byRatingB, EmailContains(email.value));
    }
  }

  /** Every address contains the empty string, so skipping the filter for "" changes nothing. */
  lemma {:induction false} EmptyEmailFilterKeepsAll(rows: seq<FeedBack>)
    ensures Where(rows, EmailContains("")) == rows
  {
    if rows != [] {
      assert OccursAt(rows[0].email, "", 0);
      EmptyEmailFilterKeepsAll(rows[1..]);
    }
  }

  /** `Enumerable.Skip`: a count of zero or less skips nothing. */
  function Skip<T>(s: seq<T>, count: int): seq<T>
  {
    if count <= 0 then s else if count >= |s| then [] else s[count..]
  }

  /** `Enumerable.Take`: a count of zero or less takes nothing. */
  function Take<T>(s: seq<T>, count: int): seq<T>
  {
    if count <= 0 then [] else if count >= |s| then s else s[..count]
  }

  /** `(page - 1) * pageSize`, the number of records before the page, without overflow. */
  function Offset(page: int, pageSize: int): (n: int)
    ensures page >= 1 && pageSize >= 0 ==> n >= 0
    ensures page <= 1 && pageSize >= 0 ==> n <= 0
  {
    assert page >= 1 && pageSize >= 0 ==> (page - 1) * pageSize >= 0 by {
      if page >= 1 && pageSize >= 0 {
        MulNonNegative(page - 1, pageSize);
      }
    }
    assert page <= 1 && pageSize >= 0 ==> (page - 1) * pageSize <= 0 by {
      if page <= 1 && pageSize >= 0 {
        MulNonNegative(1 - page, pageSize);
      }
    }
    (page - 1) * pageSize
  }

  /**
   * `Skip((page - 1) * pageSize).Take(pageSize)`, computed without overflow.
   * For positive arguments it is the slice of at most `pageSize` elements that
   * starts at `(page - 1) * pageSize`; a page number of zero or less gives the
   * first page, and a page size of zero or less gives nothing.
   */
  function Page<T>(s: seq<T>, page: Int32, pageSize: Int32): (r: seq<T>)
    ensures pageSize <= 0 ==> r == []
    ensures pageSize > 0 ==> |r| <= pageSize
    ensures forall x :: x in r ==> x in s
    ensures page >= 1 && pageSize >= 1 ==>
              r == s[Min(Offset(page, pageSize), |s|)..Min(Offset(page, pageSize) + pageSize, |s|)]
    ensures page <= 1 && pageSize >= 1 ==> r == s[..Min(pageSize, |s|)]
  {
    Take(Skip(s, Offset(page, pageSize)), pageSize)
  }

  lemma MulNonNegative(a: int, b: int)
    requires a >= 0 && b >= 0
    ensures a * b >= 0
  {
  }

  lemma MulMonotone(a: int, b: int, c: int)
    requires a <= b && c >= 0
    ensures a * c <= b * c
  {
    MulNonNegative(b - a, c);
    assert (b - a) * c == b * c - a * c;
  }

  /**
   * `(int)Math.Ceiling((double)totalItems / pageSize)`. For a non-zero page
   * size this is the ceiling of the quotient (exact in double precision for
   * 32-bit operands); a zero page size divides by zero in floating point and
   * gives no value here.
   */
  function TotalPages(totalItems: nat, pageSize: Int32): (r: Option<int>)
    ensures r.None? <==> pageSize == 0
    ensures pageSize > 0 ==> (r.value - 1) * pageSize < totalItems <= r.value * pageSize
    ensures pageSize < 0 ==> r.value * pageSize <= totalItems < (r.value - 1) * pageSize
    ensures pageSize > 0 ==> (r.value == 0 <==> totalItems == 0)
  {
    if pageSize == 0 then None
    else if pageSize > 0 then
      CeilingDivision(totalItems, pageSize);
      Some((totalItems + pageSize - 1) / pageSize)
    else
      var d: int := -(pageSize as int);
      FloorDivision(totalItems, d);
      Some(-(totalItems / d))
  }

  /** The ceiling of `n / p` for a positive `p`: the least `q` with `n <= q * p`. */
  lemma CeilingDivision(n: nat, p: int)
    requires p > 0
    ensures var q := (n + p - 1) / p; (q - 1) * p < n <= q * p && (q == 0 <==> n == 0)
  {
    var q := (n + p - 1) / p;
    var rem := (n + p - 1) % p;
    assert q * p + rem == n + p - 1 && 0 <= rem < p;
    assert (q - 1) * p == q * p - p;
    assert q - 1 >= 0 ==> (q - 1) * p >= 0 by {
      if q - 1 >= 0 {
        MulNonNegative(q - 1, p);
      }
    }
    assert q < 0 ==> q * p < 0 by {
      if q < 0 {
        MulMonotone(q, -1, p);
      }
    }
  }

  /** Floor division by a positive `d`, with the page count of a negative page size `-d` as `-q`. */
  lemma FloorDivision(n: nat, d: int)
    requires d > 0
    ensures var q := n / d; (-q) * -d <= n < (-q - 1) * -d
  {
    var q := n / d;
    assert q * d + n % d == n && 0 <= n % d < d;
    assert (-q) * -d == q * d;
    assert (-q - 1) * -d == q * d + d;
  }

  /**
   * For positive arguments, a page has records exactly when its number is at
   * most the page count: the page count is the number of non-empty pages.
   */
  lemma PageNonEmptyIffWithinTotal<T>(s: seq<T>, page: Int32, pageSize: Int32)
    requires page >= 1 && pageSize >= 1
    ensures Page(s, page, pageSize) != [] <==> page <= TotalPages(|s|, pageSize).value
  {
    var t := TotalPages(|s|, pageSize).value;
    var start := Offset(page, pageSize);
    if page <= t {
      MulMonotone(page - 1, t - 1, pageSize);
      assert start < |s|;
      assert s[start] in Page(s, page, pageSize);
    } else {
      MulMonotone(t, page - 1, pageSize);
      assert start >= |s|;
    }
  }

  /** Pages 1 to `n`, concatenated. */
  ghost function FirstPages<T>(s: seq<T>, pageSize: Int32, n: nat): seq<T>
    requires n <= Int32Max
  {
    if n == 0 then [] else FirstPages(s, pageSize, n - 1) + Page(s, n, pageSize)
  }

  /** Pages 1 to `n` are the records before page `n + 1`. */
  lemma {:induction false} FirstPagesArePrefix<T>(s: seq<T>, pageSize: Int32, n: nat)
    requires pageSize >= 1 && n <= Int32Max
    ensures FirstPages(s, pageSize, n) == s[..Min(Offset(n + 1, pageSize), |s|)]
  {
    if n > 0 {
      FirstPagesArePrefix(s, pageSize, n - 1);
      PageFollowsPrefix(s, pageSize, n);
    }
  }

  /** Page `n` continues the records before it up to the records before page `n + 1`. */
  lemma PageFollowsPrefix<T>(s: seq<T>, pageSize: Int32, n: nat)
    requires pageSize >= 1 && 1 <= n <= Int32Max
    ensures s[..Min(Offset(n, pageSize), |s|)] + Page(s, n, pageSize) == s[..Min(Offset(n + 1, pageSize), |s|)]
  {
    OffsetStep(n, pageSize);
    var lo := Min(Offset(n, pageSize), |s|);
    var hi := Min(Offset(n + 1, pageSize), |s|);
    assert s[..lo] + s[lo..hi] == s[..hi];
  }

  /** Each page starts `pageSize` records after the one before it. */
  lemma OffsetStep(n: nat, pageSize: int)
    requires n >= 1 && pageSize >= 0
    ensures Offset(n + 1, pageSize) == Offset(n, pageSize) + pageSize
  {
    assert n * pageSize == (n - 1) * pageSize + pageSize;
  }

  /** Pages 1 to `TotalPages`, in order, are the whole listing: nothing is lost or repeated. */
  lemma PagesCoverAll<T>(s: seq<T>, pageSize: Int32)
    requires pageSize >= 1 && |s| <= Int32Max
    ensures TotalPages(|s|, pageSize).Some?
    ensures TotalPages(|s|, pageSize).value <= Int32Max
    ensures FirstPages(s, pageSize, TotalPages(|s|, pageSize).value) == s
  {
    var t := TotalPages(|s|, pageSize).value;
    if t > |s| {
      MulMonotone(|s|, t - 1, pageSize);
      MulMonotone(1, pageSize, |s|);
    }
    FirstPagesArePrefix(s, pageSize, t);
    assert Offset(t + 1, pageSize) == t * pageSize;
  }

  /**
   * The paging as written: C#'s `int` arithmetic in `(page - 1) * pageSize`
   * is unchecked and wraps around modulo 2^32.
   */
  function PageAsWritten<T>(s: seq<T>, page: Int32, pageSize: Int32): (r: seq<T>)
    ensures pageSize <= 0 ==> r == []
    ensures pageSize > 0 ==> |r| <= pageSize
    ensures forall x :: x in r ==> x in s
  {
    Take(Skip(s, Wrap32(Wrap32(page - 1) * pageSize)), pageSize)
  }

  /** Where `(page - 1) * pageSize` fits in an `int`, the code as written and `Page` agree. */
  lemma PageAsWrittenAgrees<T>(s: seq<T>, page: Int32, pageSize: Int32)
    requires page > Int32Min && Int32Min <= (page - 1) * pageSize <= Int32Max
    ensures PageAsWritten(s, page, pageSize) == Page(s, page, pageSize)
  {
  }

  /**
   * Page 429496731 of size 10 lies beyond the last page of any listing, yet
   * `(429496731 - 1) * 10` wraps to 4, so the code returns records 5 to 14.
   */
  lemma PageOverflowReturnsEarlierRecords<T>(s: seq<T>)
    requires 5 <= |s| <= Int32Max
    ensures 429496731 > TotalPages(|s|, 10).value
    ensures Page(s, 429496731, 10) == []
    ensures PageAsWritten(s, 429496731, 10) == s[4..Min(14, |s|)] != []
  {
    assert Wrap32(429496730 * 10) == 4;
  }
}
