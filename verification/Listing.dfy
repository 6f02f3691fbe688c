/** An owner's links, page by page. */
module Listing {
  import opened Common
  import opened Schema

  /** OFFSET (page - 1) * size LIMIT size. */
  function Page<T>(listing: seq<T>, page: nat, size: nat): seq<T>
    requires page >= 1
  {
    var offset := Min((page - 1) * size, |listing|);
    listing[offset..Min(offset + size, |listing|)]
  }

  function PageCount(total: nat, size: nat): nat
    requires size >= 1
  {
    if total == 0 then 0 else (total + size - 1) / size
  }

  function OwnedIds(rows: Rows, owner: Id): set<Id> {
    set id | id in rows && rows[id].ownerId == Some(owner)
  }

  /** A result of the listing query: the owner's rows, each once, newest first. */
  ghost predicate IsListing(rows: Rows, owner: Id, listing: seq<Row>) {
    && (forall r :: r in listing ==> r.id in rows && rows[r.id] == r && r.ownerId == Some(owner))
    && (forall id :: id in rows && rows[id].ownerId == Some(owner) ==> rows[id] in listing)
    && (forall i, j :: 0 <= i < j < |listing| ==>
          listing[i].id != listing[j].id && listing[i].createdAt >= listing[j].createdAt)
  }

  function FirstPages<T>(listing: seq<T>, size: nat, n: nat): seq<T> {
    if n == 0 then [] else FirstPages(listing, size, n - 1) + Page(listing, n, size)
  }

  lemma {:induction false} FirstPagesPrefix<T>(listing: seq<T>, size: nat, n: nat)
    ensures FirstPages(listing, size, n) == listing[..Min(Multiple(n, size), |listing|)]
  {
    hide Page;
    if n == 0 {
    } else {
      FirstPagesPrefix(listing, size, n - 1);
      PageAt(listing, n, size);
    }
  }

  lemma {:induction false} PageAt<T>(listing: seq<T>, page: nat, size: nat)
    requires page >= 1
    ensures var offset := Min(Multiple(page - 1, size), |listing|);
      Page(listing, page, size) == listing[offset..Min(offset + size, |listing|)]
  {
    MultipleIsProduct(page - 1, size);
  }

  /**
    Read against one fixed order, the pages spell out the listing exactly once: together they are the listing, each but
    the last is full, the last is not empty, and every later page is.
   */
  lemma {:induction false} PagesPartition<T>(listing: seq<T>, size: nat, page: nat)
    requires size >= 1 && page >= 1
    ensures var n := PageCount(|listing|, size);
      && FirstPages(listing, size, n) == listing
      && (page < n ==> |Page(listing, page, size)| == size)
      && (page == n ==> 1 <= |Page(listing, page, size)| <= size)
      && (page > n ==> Page(listing, page, size) == [])
  {
    var total, n := |listing|, PageCount(|listing|, size);
    CeilDiv(total, size, n);
    CeilDiv(total, size, page);
    CeilDiv(total, size, page - 1);
    MultipleIsProduct(n, size);
    MultipleIsProduct(page, size);
    MultipleIsProduct(page - 1, size);
    FirstPagesPrefix(listing, size, n);
    PageAt(listing, page, size);
  }

  /** These are the owner's rows that follow the earlier pages, each once, newest first. */
  ghost predicate IsPage(rows: Rows, owner: Id, listing: seq<Row>, page: nat, size: nat, items: seq<Row>)
    requires page >= 1
  {
    && FirstPages(listing, size, page - 1) + items == FirstPages(listing, size, page)
    && (forall r :: r in items ==> r.ownerId == Some(owner) && r.id in rows && rows[r.id] == r)
    && (forall i, j :: 0 <= i < j < |items| ==>
          items[i].id != items[j].id && items[i].createdAt >= items[j].createdAt)
  }

  lemma {:induction false} PageIsPart(rows: Rows, owner: Id, listing: seq<Row>, page: nat, size: nat)
    requires page >= 1 && IsListing(rows, owner, listing)
    ensures IsPage(rows, owner, listing, page, size, Page(listing, page, size))
  {
    PageAt(listing, page, size);
    hide Page;
    forall r | r in Page(listing, page, size) ensures r.ownerId == Some(owner) && r.id in rows && rows[r.id] == r {
      assert r in listing;
    }
  }

  /** The count query agrees with the listing. */
  lemma {:induction false} ListingSize(rows: Rows, owner: Id, listing: seq<Row>)
    requires WellFormed(rows) && IsListing(rows, owner, listing)
    ensures |listing| == |OwnedIds(rows, owner)|
  {
    IdsSize(listing);
    assert OwnedIds(rows, owner) == Ids(listing) by {
      IdsMembers(listing);
      forall id | id in OwnedIds(rows, owner) ensures id in Ids(listing) {
        var i :| 0 <= i < |listing| && listing[i] == rows[id];
        assert listing[i].id == id;
      }
    }
  }

  function Ids(listing: seq<Row>): set<Id> {
    if listing == [] then {} else Ids(listing[..|listing| - 1]) + {listing[|listing| - 1].id}
  }

  lemma {:induction false} IdsMembers(listing: seq<Row>)
    ensures forall id :: id in Ids(listing) <==> exists i :: 0 <= i < |listing| && listing[i].id == id
  {
    if listing == [] {
    } else {
      IdsMembers(listing[..|listing| - 1]);
    }
  }

  lemma {:induction false} IdsSize(listing: seq<Row>)
    requires forall i, j :: 0 <= i < j < |listing| ==> listing[i].id != listing[j].id
    ensures |Ids(listing)| == |listing|
  {
    if listing == [] {
    } else {
      IdsMembers(listing[..|listing| - 1]);
      IdsSize(listing[..|listing| - 1]);
    }
  }
}
