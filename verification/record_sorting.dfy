/**
 Lists of source documents and of financial facts are sorted by one stable in-place sort per key,
 the least significant key first, and then cut to a limit.  An insertion sort stands for the
 built-in sort of lists; what it is used for is only that it is stable (`Sorted`).
 */
module RecordSorting {
  import opened Basics

  /** `id` is the position of the text of the identifier in the order of texts. */
  datatype Document = Document(id: int, retrievedAt: int, publishedAt: Option<int>)
  datatype Fact = Fact(id: int, retrievedAt: int, filedAt: Option<int>, periodEnd: Option<int>)

  const MIN_DATE := 1

  ghost predicate TotalPreorder<R(!new)>(le: (R, R) -> bool) {
    && (forall a, b :: le(a, b) || le(b, a))
    && (forall a, b, c :: le(a, b) && le(b, c) ==> le(a, c))
  }

  ghost predicate Ordered<R>(s: seq<R>, le: (R, R) -> bool) {
    forall i, j | 0 <= i < j < |s| :: le(s[i], s[j])
  }

  /** First by `major`, records that are equal there by `minor`. */
  function Lex<R>(major: (R, R) -> bool, minor: (R, R) -> bool): (R, R) -> bool {
    (a, b) => major(a, b) && (major(b, a) ==> minor(a, b))
  }

  /** Put `x` after every record that may stay before it. */
  function Insert<R>(s: seq<R>, x: R, le: (R, R) -> bool): (r: seq<R>)
    ensures |r| == |s| + 1
  {
    if s == [] || le(s[|s| - 1], x) then s + [x] else
      Insert(s[..|s| - 1], x, le) + [s[|s| - 1]]
  }

  /** The stable sort of `s`. */
  function Sorted<R>(s: seq<R>, le: (R, R) -> bool): (r: seq<R>)
    ensures |r| == |s|
  {
    if s == [] then [] else Insert(Sorted(s[..|s| - 1], le), s[|s| - 1], le)
  }

  lemma {:induction false} InsertPermutes<R>(s: seq<R>, x: R, le: (R, R) -> bool)
    ensures multiset(Insert(s, x, le)) == multiset(s) + multiset{x}
    decreases |s|
  {
    if s != [] {
      assert s == s[..|s| - 1] + [s[|s| - 1]];
      InsertPermutes(s[..|s| - 1], x, le);
    }
  }

  lemma {:induction false} SortedPermutes<R>(s: seq<R>, le: (R, R) -> bool)
    ensures multiset(Sorted(s, le)) == multiset(s)
    decreases |s|
  {
    if s != [] {
      assert s == s[..|s| - 1] + [s[|s| - 1]];
      SortedPermutes(s[..|s| - 1], le);
      InsertPermutes(Sorted(s[..|s| - 1], le), s[|s| - 1], le);
    }
  }

  // --- one pass after another ---

  /** Inserting a record that comes last in the minor order keeps the combined order. */
  lemma {:induction false} InsertKeepsLex<R(!new)>(s: seq<R>, x: R, major: (R, R) -> bool, minor: (R, R) -> bool)
    requires TotalPreorder(major) && Ordered(s, Lex(major, minor))
    requires forall y | y in s :: minor(y, x)
    ensures Ordered(Insert(s, x, major), Lex(major, minor))
    decreases |s|
  {
    var le := Lex(major, minor);
    if s != [] {
      var front, last := s[..|s| - 1], s[|s| - 1];
      if major(last, x) {
        forall i | 0 <= i < |s|
          ensures le(s[i], x)
        {
          assert s[i] in s && (i < |s| - 1 ==> le(s[i], last));
        }
      } else {
        InsertKeepsLex(front, x, major, minor);
        var r := Insert(front, x, major);
        InsertPermutes(front, x, major);
        forall i | 0 <= i < |r|
          ensures le(r[i], last)
        {
          assert r[i] in multiset(r);
          assert r[i] == x || r[i] in front;
        }
      }
    }
  }

  /** A stable pass over records in the minor order leaves them in the combined order. */
  lemma {:induction false} PassesCombine<R(!new)>(s: seq<R>, major: (R, R) -> bool, minor: (R, R) -> bool)
    requires TotalPreorder(major) && Ordered(s, minor)
    ensures Ordered(Sorted(s, major), Lex(major, minor))
    decreases |s|
  {
    if s != [] {
      var front, x := s[..|s| - 1], s[|s| - 1];
      PassesCombine(front, major, minor);
      var t := Sorted(front, major);
      SortedPermutes(front, major);
      forall y | y in t
        ensures minor(y, x)
      {
        assert y in multiset(t) && y in front;
        var i :| 0 <= i < |front| && front[i] == y;
        assert s[i] == y;
      }
      InsertKeepsLex(t, x, major, minor);
    }
  }

  lemma SortedIsOrdered<R(!new)>(s: seq<R>, le: (R, R) -> bool)
    requires TotalPreorder(le)
    ensures Ordered(Sorted(s, le), le)
  {
    PassesCombine(s, le, (a, b) => true);
    var r := Sorted(s, le);
    forall i, j | 0 <= i < j < |r|
      ensures le(r[i], r[j])
    {
      assert Lex(le, (a, b) => true)(r[i], r[j]);
    }
  }

  lemma LexIsTotalPreorder<R(!new)>(major: (R, R) -> bool, minor: (R, R) -> bool)
    requires TotalPreorder(major) && TotalPreorder(minor)
    ensures TotalPreorder(Lex(major, minor))
  {
  }

  // --- the result does not depend on the order of the input ---

  /** Records that the order cannot tell apart are the same record. */
  ghost predicate ToldApart<R>(s: seq<R>, le: (R, R) -> bool) {
    forall a, b | a in s && b in s && le(a, b) && le(b, a) :: a == b
  }

  lemma SameHead<R(!new)>(s: seq<R>, t: seq<R>, le: (R, R) -> bool)
    requires multiset(s) == multiset(t) && Ordered(s, le) && Ordered(t, le) && ToldApart(s, le) && TotalPreorder(le)
    requires s != [] && t != []
    ensures s[0] == t[0]
  {
    assert s[0] in multiset(t) && t[0] in multiset(s);
    var i :| 0 <= i < |t| && t[i] == s[0];
    var j :| 0 <= j < |s| && s[j] == t[0];
    assert le(s[0], t[0]) && le(t[0], s[0]);
  }

  lemma TailOf<R>(s: seq<R>)
    requires s != []
    ensures multiset(s[1..]) == multiset(s) - multiset{s[0]}
  {
    assert s == [s[0]] + s[1..];
  }

  lemma {:induction false} OrderedIsUnique<R(!new)>(s: seq<R>, t: seq<R>, le: (R, R) -> bool)
    requires multiset(s) == multiset(t) && Ordered(s, le) && Ordered(t, le) && ToldApart(s, le) && TotalPreorder(le)
    ensures s == t
    decreases |s|
  {
    assert |multiset(s)| == |multiset(t)|;
    if s != [] {
      SameHead(s, t, le);
      hide TotalPreorder;
      TailOf(s);
      TailOf(t);
      assert ToldApart(s[1..], le);
      OrderedIsUnique(s[1..], t[1..], le);
    }
  }

  /** The slice up to a limit, which may be longer than the list. */
  function Top<R>(s: seq<R>, limit: nat): seq<R> { if limit <= |s| then s[..limit] else s }

  /** Whatever is cut off by a limit comes after everything that is kept. */
  lemma TopOfOrdered<R(!new)>(s: seq<R>, limit: nat, le: (R, R) -> bool)
    requires Ordered(s, le)
    ensures var kept := Top(s, limit);
      && |kept| == (if limit <= |s| then limit else |s|) && kept <= s
      && forall a, b | a in kept && b in s[|kept|..] :: le(a, b)
  {
    var kept := Top(s, limit);
    forall a, b | a in kept && b in s[|kept|..]
      ensures le(a, b)
    {
      var i :| 0 <= i < |kept| && s[i] == a;
      var j :| |kept| <= j < |s| && s[j] == b;
    }
  }

  // --- the in-place sort ---

  lemma InsertFurther<R>(front: seq<R>, last: R, back: seq<R>, x: R, le: (R, R) -> bool)
    requires !le(last, x)
    ensures Insert(front + [last], x, le) + back == Insert(front, x, le) + ([last] + back)
  {
    assert (front + [last])[..|front|] == front;
  }

  /** Move the element at `i` to its place among the sorted ones before it. */
  method PutInPlace<R>(a: array<R>, i: nat, le: (R, R) -> bool)
    requires i < a.Length
    modifies a
    ensures a[..i + 1] == Insert(old(a[..i]), old(a[i]), le) && a[i + 1..] == old(a[i + 1..])
  {
    var x, j := a[i], i;
    ghost var t := a[..i];
    ghost var rest := a[i + 1..];
    assert t[..i] == t;
    while j > 0 && !le(a[j - 1], x)
      invariant 0 <= j <= i && a[i + 1..] == rest
      invariant forall k | 0 <= k < j :: a[k] == t[k]
      invariant forall k | j < k <= i :: a[k] == t[k - 1]
      invariant Insert(t, x, le) == Insert(t[..j], x, le) + t[j..]
    {
      hide Insert;
      InsertFurther(t[..j - 1], t[j - 1], t[j..], x, le);
      assert t[..j] == t[..j - 1] + [t[j - 1]] && t[j - 1..] == [t[j - 1]] + t[j..];
      a[j] := a[j - 1];
      j := j - 1;
    }
    a[j] := x;
    assert j > 0 ==> t[..j][j - 1] == t[j - 1];
    assert a[..i + 1] == t[..j] + [x] + t[j..];
  }

  method StableSort<R>(a: array<R>, le: (R, R) -> bool)
    modifies a
    ensures a[..] == Sorted(old(a[..]), le)
  {
    ghost var was := a[..];
    for i := 0 to a.Length
      invariant a[..i] == Sorted(was[..i], le) && a[i..] == was[i..]
    {
      assert a[i] == a[i..][0] == was[i] && a[i + 1..] == a[i..][1..];
      PutInPlace(a, i, le);
      assert was[..i + 1][..i] == was[..i] && was[i + 1..] == was[i..][1..];
    }
    assert was[..a.Length] == was && a[..a.Length] == a[..];
  }

  // --- documents ---

  function Effective(stamp: Option<int>, fallback: int): int { if stamp.Some? then stamp.value else fallback }

  function DocumentById(): (Document, Document) -> bool { (a: Document, b: Document) => a.id <= b.id }
  function DocumentByRetrieval(): (Document, Document) -> bool { (a: Document, b: Document) => a.retrievedAt >= b.retrievedAt }
  function DocumentByPublication(): (Document, Document) -> bool {
    (a: Document, b: Document) => Effective(a.publishedAt, a.retrievedAt) >= Effective(b.publishedAt, b.retrievedAt)
  }

  /** Newest publication first, then newest retrieval, then by identifier. */
  function DocumentOrder(): (Document, Document) -> bool {
    Lex(DocumentByPublication(), Lex(DocumentByRetrieval(), DocumentById()))
  }

  ghost predicate DistinctDocuments(s: seq<Document>) { forall i, j | 0 <= i < j < |s| :: s[i].id != s[j].id }

  function SortedDocuments(s: seq<Document>): seq<Document> {
    Sorted(Sorted(Sorted(s, DocumentById()), DocumentByRetrieval()), DocumentByPublication())
  }

  /** `_sorted_documents`, on one list: what `DocumentsNewestFirst` says of its fields holds of the array. */
  method SortDocuments(a: array<Document>)
    modifies a
    ensures a[..] == SortedDocuments(old(a[..])) && multiset(a[..]) == multiset(old(a[..]))
    ensures var r := a[..]; forall i, j | 0 <= i < j < |r| ::
      var published := if r[i].publishedAt.Some? then r[i].publishedAt.value else r[i].retrievedAt;
      var next := if r[j].publishedAt.Some? then r[j].publishedAt.value else r[j].retrievedAt;
      && published >= next
      && (published == next ==> r[i].retrievedAt >= r[j].retrievedAt)
      && (published == next && r[i].retrievedAt == r[j].retrievedAt ==> r[i].id <= r[j].id)
  {
    hide Sorted, Ordered, TotalPreorder, Lex;
    ghost var was := a[..];
    StableSort(a, DocumentById());
    StableSort(a, DocumentByRetrieval());
    StableSort(a, DocumentByPublication());
    assert a[..] == SortedDocuments(was);
    DocumentsNewestFirst(was);
  }

  /**
     In the fields alone: the newest publication first, where a document without a publication time
     counts as published when it was retrieved; among equals the newest retrieval first, and among
     those the smallest identifier first.
   */
  lemma DocumentsNewestFirst(s: seq<Document>)
    ensures var r := SortedDocuments(s);
      && multiset(r) == multiset(s) && |r| == |s|
      && forall i, j | 0 <= i < j < |r| ::
        var published := if r[i].publishedAt.Some? then r[i].publishedAt.value else r[i].retrievedAt;
        var next := if r[j].publishedAt.Some? then r[j].publishedAt.value else r[j].retrievedAt;
        && published >= next
        && (published == next ==> r[i].retrievedAt >= r[j].retrievedAt)
        && (published == next && r[i].retrievedAt == r[j].retrievedAt ==> r[i].id <= r[j].id)
  {
    DocumentsOrdered(s);
    assert |multiset(SortedDocuments(s))| == |multiset(s)|;
    hide SortedDocuments, Sorted, TotalPreorder;
    var r := SortedDocuments(s);
    forall i, j | 0 <= i < j < |r|
      ensures DocumentOrder()(r[i], r[j])
    {
    }
  }

  lemma DocumentsOrdered(s: seq<Document>)
    ensures multiset(SortedDocuments(s)) == multiset(s)
    ensures Ordered(SortedDocuments(s), DocumentOrder()) && TotalPreorder(DocumentOrder())
  {
    var id, retrieval, publication := DocumentById(), DocumentByRetrieval(), DocumentByPublication();
    SortedIsOrdered(s, id);
    SortedPermutes(s, id);
    SortedPermutes(Sorted(s, id), retrieval);
    SortedPermutes(Sorted(Sorted(s, id), retrieval), publication);
    PassesCombine(Sorted(s, id), retrieval, id);
    PassesCombine(Sorted(Sorted(s, id), retrieval), publication, Lex(retrieval, id));
    LexIsTotalPreorder(retrieval, id);
    LexIsTotalPreorder(publication, Lex(retrieval, id));
  }

  lemma DocumentsToldApart(s: seq<Document>)
    requires DistinctDocuments(s)
    ensures ToldApart(s, DocumentOrder())
  {
    forall a, b | a in s && b in s && DocumentOrder()(a, b) && DocumentOrder()(b, a)
      ensures a == b
    {
      var i :| 0 <= i < |s| && s[i] == a;
      var j :| 0 <= j < |s| && s[j] == b;
      assert a.id == b.id;
    }
  }

  /**
     The three passes are one lexicographic sort: with distinct identifiers the result is the one
     ordered permutation of the input, the same for every order of the input.
   */
  lemma DocumentsSortedOnce(s: seq<Document>, t: seq<Document>)
    requires DistinctDocuments(s) && multiset(s) == multiset(t)
    ensures SortedDocuments(s) == Sorted(s, DocumentOrder()) == SortedDocuments(t)
  {
    DocumentsOrdered(s);
    DocumentsOrdered(t);
    SortedIsOrdered(s, DocumentOrder());
    SortedPermutes(s, DocumentOrder());
    DocumentsToldApart(s);
    SameRecords(s, SortedDocuments(s), DocumentOrder());
    OrderedIsUnique(SortedDocuments(s), Sorted(s, DocumentOrder()), DocumentOrder());
    OrderedIsUnique(SortedDocuments(s), SortedDocuments(t), DocumentOrder());
  }

  lemma SameRecords<R(!new)>(s: seq<R>, t: seq<R>, le: (R, R) -> bool)
    requires multiset(s) == multiset(t) && ToldApart(s, le)
    ensures ToldApart(t, le)
  {
    forall a | a in t
      ensures a in s
    {
      assert a in multiset(t);
    }
  }

  /** The cut keeps the true top of the list: what is cut off is no newer than anything kept. */
  lemma DocumentsTop(s: seq<Document>, limit: nat)
    ensures var r := SortedDocuments(s); var kept := Top(r, limit);
      && |r| == |s| && |kept| == (if limit <= |s| then limit else |s|) && kept <= r
      && forall a, b | a in kept && b in r[|kept|..] ::
        var published := if a.publishedAt.Some? then a.publishedAt.value else a.retrievedAt;
        var next := if b.publishedAt.Some? then b.publishedAt.value else b.retrievedAt;
        && DocumentOrder()(a, b) && published >= next
        && (published == next ==> a.retrievedAt >= b.retrievedAt)
        && (published == next && a.retrievedAt == b.retrievedAt ==> a.id <= b.id)
  {
    DocumentsOrdered(s);
    TopOfOrdered(SortedDocuments(s), limit, DocumentOrder());
    hide SortedDocuments, Sorted, TotalPreorder, Ordered;
  }

  // --- financial facts ---

  function FactById(): (Fact, Fact) -> bool { (a: Fact, b: Fact) => a.id <= b.id }
  function FactByRetrieval(): (Fact, Fact) -> bool { (a: Fact, b: Fact) => a.retrievedAt >= b.retrievedAt }
  function FactByFiling(): (Fact, Fact) -> bool {
    (a: Fact, b: Fact) => Effective(a.filedAt, a.retrievedAt) >= Effective(b.filedAt, b.retrievedAt)
  }
  function FactByPeriod(): (Fact, Fact) -> bool {
    (a: Fact, b: Fact) => Effective(a.periodEnd, MIN_DATE) >= Effective(b.periodEnd, MIN_DATE)
  }

  /** Latest period first, then newest filing, then newest retrieval, then by identifier. */
  function FactOrder(): (Fact, Fact) -> bool { Lex(FactByPeriod(), Lex(FactByFiling(), Lex(FactByRetrieval(), FactById()))) }

  ghost predicate DistinctFacts(s: seq<Fact>) { forall i, j | 0 <= i < j < |s| :: s[i].id != s[j].id }

  function SortedFacts(s: seq<Fact>): seq<Fact> {
    Sorted(Sorted(Sorted(Sorted(s, FactById()), FactByRetrieval()), FactByFiling()), FactByPeriod())
  }

  /** `_sorted_facts`, on one list: what `FactsNewestFirst` says of its fields holds of the array. */
  method SortFacts(a: array<Fact>)
    modifies a
    ensures a[..] == SortedFacts(old(a[..])) && multiset(a[..]) == multiset(old(a[..]))
    ensures var r := a[..]; forall i, j | 0 <= i < j < |r| ::
      var end := if r[i].periodEnd.Some? then r[i].periodEnd.value else 1;
      var nextEnd := if r[j].periodEnd.Some? then r[j].periodEnd.value else 1;
      var filed := if r[i].filedAt.Some? then r[i].filedAt.value else r[i].retrievedAt;
      var next := if r[j].filedAt.Some? then r[j].filedAt.value else r[j].retrievedAt;
      && end >= nextEnd
      && (end == nextEnd ==> filed >= next)
      && (end == nextEnd && filed == next ==> r[i].retrievedAt >= r[j].retrievedAt)
      && (end == nextEnd && filed == next && r[i].retrievedAt == r[j].retrievedAt ==> r[i].id <= r[j].id)
  {
    hide Sorted, Ordered, TotalPreorder, Lex;
    ghost var was := a[..];
    StableSort(a, FactById());
    StableSort(a, FactByRetrieval());
    StableSort(a, FactByFiling());
    StableSort(a, FactByPeriod());
    assert a[..] == SortedFacts(was);
    FactsNewestFirst(was);
  }

  /**
     In the fields alone: the latest period first, a fact without a period last (day 1 is the
     earliest date there is); then the newest filing, or retrieval where there is none; then the
     newest retrieval, then the smallest identifier.
   */
  lemma FactsNewestFirst(s: seq<Fact>)
    ensures var r := SortedFacts(s);
      && multiset(r) == multiset(s) && |r| == |s|
      && forall i, j | 0 <= i < j < |r| ::
        var end := if r[i].periodEnd.Some? then r[i].periodEnd.value else 1;
        var nextEnd := if r[j].periodEnd.Some? then r[j].periodEnd.value else 1;
        var filed := if r[i].filedAt.Some? then r[i].filedAt.value else r[i].retrievedAt;
        var next := if r[j].filedAt.Some? then r[j].filedAt.value else r[j].retrievedAt;
        && end >= nextEnd
        && (end == nextEnd ==> filed >= next)
        && (end == nextEnd && filed == next ==> r[i].retrievedAt >= r[j].retrievedAt)
        && (end == nextEnd && filed == next && r[i].retrievedAt == r[j].retrievedAt ==> r[i].id <= r[j].id)
  {
    FactsOrdered(s);
    assert |multiset(SortedFacts(s))| == |multiset(s)|;
    hide SortedFacts, Sorted, TotalPreorder;
    var r := SortedFacts(s);
    forall i, j | 0 <= i < j < |r|
      ensures FactOrder()(r[i], r[j])
    {
    }
  }

  lemma FactsOrdered(s: seq<Fact>)
    ensures multiset(SortedFacts(s)) == multiset(s)
    ensures Ordered(SortedFacts(s), FactOrder()) && TotalPreorder(FactOrder())
  {
    var id, retrieval, filing, period := FactById(), FactByRetrieval(), FactByFiling(), FactByPeriod();
    SortedIsOrdered(s, id);
    var first := Sorted(s, id);
    PassesCombine(first, retrieval, id);
    var second := Sorted(first, retrieval);
    SortedPermutes(s, id);
    SortedPermutes(first, retrieval);
    SortedPermutes(second, filing);
    SortedPermutes(Sorted(second, filing), period);
    PassesCombine(second, filing, Lex(retrieval, id));
    PassesCombine(Sorted(second, filing), period, Lex(filing, Lex(retrieval, id)));
    LexIsTotalPreorder(retrieval, id);
    LexIsTotalPreorder(filing, Lex(retrieval, id));
    LexIsTotalPreorder(period, Lex(filing, Lex(retrieval, id)));
  }

  lemma FactsToldApart(s: seq<Fact>)
    requires DistinctFacts(s)
    ensures ToldApart(s, FactOrder())
  {
    forall a, b | a in s && b in s && FactOrder()(a, b) && FactOrder()(b, a)
      ensures a == b
    {
      var i :| 0 <= i < |s| && s[i] == a;
      var j :| 0 <= j < |s| && s[j] == b;
      assert a.id == b.id;
    }
  }

  lemma FactsSortedOnce(s: seq<Fact>, t: seq<Fact>)
    requires DistinctFacts(s) && multiset(s) == multiset(t)
    ensures SortedFacts(s) == Sorted(s, FactOrder()) == SortedFacts(t)
  {
    FactsOrdered(s);
    FactsOrdered(t);
    SortedIsOrdered(s, FactOrder());
    SortedPermutes(s, FactOrder());
    FactsToldApart(s);
    SameRecords(s, SortedFacts(s), FactOrder());
    OrderedIsUnique(SortedFacts(s), Sorted(s, FactOrder()), FactOrder());
    OrderedIsUnique(SortedFacts(s), SortedFacts(t), FactOrder());
  }

  lemma FactsTop(s: seq<Fact>, limit: nat)
    ensures var r := SortedFacts(s); var kept := Top(r, limit);
      && |r| == |s| && |kept| == (if limit <= |s| then limit else |s|) && kept <= r
      && forall a, b | a in kept && b in r[|kept|..] ::
        var end := if a.periodEnd.Some? then a.periodEnd.value else 1;
        var nextEnd := if b.periodEnd.Some? then b.periodEnd.value else 1;
        var filed := if a.filedAt.Some? then a.filedAt.value else a.retrievedAt;
        var next := if b.filedAt.Some? then b.filedAt.value else b.retrievedAt;
        && FactOrder()(a, b) && end >= nextEnd
        && (end == nextEnd ==> filed >= next)
        && (end == nextEnd && filed == next ==> a.retrievedAt >= b.retrievedAt)
        && (end == nextEnd && filed == next && a.retrievedAt == b.retrievedAt ==> a.id <= b.id)
  {
    FactsOrdered(s);
    TopOfOrdered(SortedFacts(s), limit, FactOrder());
    hide SortedFacts, Sorted, TotalPreorder, Ordered;
  }
}
