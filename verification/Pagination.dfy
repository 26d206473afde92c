/** Keyset pagination of threads and messages: pages in descending (time, id) order, each
    continuing below the key that the previous page's cursor carries. */
module Pagination {
  import opened Wrappers
  import opened Base64

  // ------------------------------------------------------------ keys and order

  /** The sort key: a moment in microseconds, then the item's id. */
  datatype Key = Key(time: int, id: string)

  datatype Item = Item(key: Key, body: string)

  predicate TextLess(a: string, b: string) {
    if b == "" then false
    else if a == "" then true
    else a[0] < b[0] || (a[0] == b[0] && TextLess(a[1..], b[1..]))
  }

  predicate Less(a: Key, b: Key) {
    a.time < b.time || (a.time == b.time && TextLess(a.id, b.id))
  }

  lemma {:induction false} TextTransitive(a: string, b: string, c: string)
    requires TextLess(a, b) && TextLess(b, c)
    ensures TextLess(a, c)
  {
    if a != "" && a[0] == b[0] == c[0] {
      TextTransitive(a[1..], b[1..], c[1..]);
    }
  }

  lemma {:induction false} TextTrichotomy(a: string, b: string)
    ensures !(TextLess(a, b) && TextLess(b, a))
    ensures TextLess(a, b) || a == b || TextLess(b, a)
    ensures a == b ==> !TextLess(a, b)
  {
    if a != "" && b != "" && a[0] == b[0] {
      TextTrichotomy(a[1..], b[1..]);
      assert a == [a[0]] + a[1..] && b == [b[0]] + b[1..];
    }
  }

  /** (time, id) is a strict total order. */
  lemma Trichotomy(a: Key, b: Key)
    ensures !(Less(a, b) && Less(b, a))
    ensures Less(a, b) || a == b || Less(b, a)
    ensures a == b ==> !Less(a, b)
  {
    TextTrichotomy(a.id, b.id);
  }

  lemma Transitive(a: Key, b: Key, c: Key)
    requires Less(a, b) && Less(b, c)
    ensures Less(a, c)
  {
    if a.time == b.time == c.time {
      TextTransitive(a.id, b.id, c.id);
    }
  }

  /** Ids are compared at the first character in which they differ; a prefix comes first. */
  lemma {:induction false} TextOrder(a: string, b: string)
    ensures TextLess(a, b) <==> exists n :: DiffersAt(a, b, n)
  {
    if a != "" && b != "" && a[0] == b[0] {
      TextOrder(a[1..], b[1..]);
      if n :| DiffersAt(a[1..], b[1..], n) {
        assert a[..n + 1] == [a[0]] + a[1..][..n] && b[..n + 1] == [b[0]] + b[1..][..n];
        assert DiffersAt(a, b, n + 1);
      }
      if n :| DiffersAt(a, b, n) {
        assert n > 0;
        assert a[1..][..n - 1] == a[..n][1..] && b[1..][..n - 1] == b[..n][1..];
        assert DiffersAt(a[1..], b[1..], n - 1);
      }
    } else {
      assert TextLess(a, b) ==> DiffersAt(a, b, 0);
      forall n | DiffersAt(a, b, n) ensures n == 0 {
        SameStart(a, b, n);
      }
    }
  }

  lemma SameStart(a: string, b: string, n: int)
    requires DiffersAt(a, b, n)
    ensures n == 0 || (a != "" && b != "" && a[0] == b[0])
  {
    if n > 0 {
      assert a[..n][0] == b[..n][0];
    }
  }

  /** `a` and `b` agree before place `n`, where `a` ends or has the smaller character. */
  predicate DiffersAt(a: string, b: string, n: int) {
    0 <= n <= |a| && n < |b| && a[..n] == b[..n] && (n < |a| ==> a[n] < b[n])
  }

  /** Earlier comes before later; at the same moment the ids decide. */
  lemma KeyOrder(a: Key, b: Key)
    ensures a.time < b.time ==> Less(a, b) && !Less(b, a)
    ensures a.time == b.time ==> (Less(a, b) <==> exists n :: DiffersAt(a.id, b.id, n))
  {
    TextOrder(a.id, b.id);
  }

  // ----------------------------------------------------------------- cursors

  /** How a key is written to bytes and read back; reading may fail. */
  datatype Codec = Codec(write: Key -> seq<byte>, read: seq<byte> -> Option<Key>)

  /** Two-element JSON arrays are never empty text and are read back as written. */
  ghost predicate Faithful(codec: Codec) {
    forall k :: codec.write(k) != [] && codec.read(codec.write(k)) == Some(k)
  }

  function Cursor(codec: Codec, k: Key): string {
    Strip(Encode(codec.write(k)))
  }

  datatype Boundary = First | Below(key: Key) | Invalid

  function DecodeCursor(codec: Codec, cursor: Option<string>): Boundary {
    if cursor.None? || cursor.value == "" then First
    else match Decode(Pad(cursor.value))
      case None => Invalid
      case Some(raw) => match codec.read(raw) case None => Invalid case Some(k) => Below(k)
  }

  /** A cursor handed out is read back as the key it was made from, never as "first page". */
  lemma CursorRoundTrip(codec: Codec, k: Key)
    requires Faithful(codec)
    ensures DecodeCursor(codec, Some(Cursor(codec, k))) == Below(k)
  {
    hide Encode, Strip, Pad, Decode;
    PadStrip(codec.write(k));
    RoundTrip(codec.write(k));
  }

  // ------------------------------------------------------------------- pages

  predicate Matches(x: Item, keep: Item -> bool, b: Boundary) {
    keep(x) && (b.Below? ==> Less(x.key, b.key))
  }

  function Filter(store: seq<Item>, keep: Item -> bool, b: Boundary): seq<Item> {
    if store == [] then []
    else (if Matches(store[0], keep, b) then [store[0]] else []) + Filter(store[1..], keep, b)
  }

  function Insert(x: Item, s: seq<Item>): seq<Item> {
    if s == [] || Less(s[0].key, x.key) then [x] + s else [s[0]] + Insert(x, s[1..])
  }

  /** Sorted by key, greatest first. */
  function SortDescending(s: seq<Item>): seq<Item> {
    if s == [] then [] else Insert(s[0], SortDescending(s[1..]))
  }

  function PageSize(limit: int): (n: nat)
    ensures n >= 1
  {
    if limit < 1 then 1 else limit
  }

  datatype Listing = Refused | Page(items: seq<Item>, next: Option<string>)

  /** One item more than the page is looked at, to tell whether there is a next page. */
  function ListPage(codec: Codec, store: seq<Item>, keep: Item -> bool, limit: int, cursor: Option<string>): Listing {
    var b := DecodeCursor(codec, cursor);
    if b.Invalid? then Refused
    else
      var ordered := SortDescending(Filter(store, keep, b));
      var n := PageSize(limit);
      var more := if |ordered| > n + 1 then ordered[..n + 1] else ordered;
      if |more| > n then Page(more[..n], Some(Cursor(codec, more[n - 1].key))) else Page(more, None)
  }

  /** No cursor, or an empty one, starts at the first page; one that cannot be read is refused. */
  lemma CursorCases(codec: Codec, store: seq<Item>, keep: Item -> bool, limit: int, text: string)
    ensures ListPage(codec, store, keep, limit, Some("")) == ListPage(codec, store, keep, limit, None) && ListPage(codec, store, keep, limit, None).Page?
    ensures text != "" ==>
      (ListPage(codec, store, keep, limit, Some(text)).Refused? <==> Decode(Pad(text)).None? || codec.read(Decode(Pad(text)).value).None?)
  {
    hide Decode, Pad, Filter, SortDescending, Cursor;
  }

  // ------------------------------------------------ what one page is, exactly

  ghost predicate Descending(s: seq<Item>) {
    forall i, j :: 0 <= i < j < |s| ==> Less(s[j].key, s[i].key)
  }

  /** Items are stored under their id, so no two have the same. */
  ghost predicate DistinctIds(store: seq<Item>) {
    forall i, j :: 0 <= i < j < |store| ==> store[i].key.id != store[j].key.id
  }

  /** `s` lists, in descending order, exactly the items of `store` that match. */
  ghost predicate Lists(s: seq<Item>, store: seq<Item>, keep: Item -> bool, b: Boundary) {
    Descending(s) && forall x :: x in s <==> x in store && Matches(x, keep, b)
  }

  lemma {:induction false} FilterIsExact(store: seq<Item>, keep: Item -> bool, b: Boundary)
    requires DistinctIds(store)
    ensures forall x :: x in Filter(store, keep, b) <==> x in store && Matches(x, keep, b)
    ensures DistinctIds(Filter(store, keep, b))
  {
    hide Matches;
    if store != [] {
      var rest := store[1..];
      assert forall i :: 0 <= i < |rest| ==> rest[i] == store[i + 1];
      FilterIsExact(rest, keep, b);
      var tail := Filter(rest, keep, b);
      forall x ensures x in Filter(store, keep, b) <==> x in store && Matches(x, keep, b) {
        assert x in store <==> x == store[0] || x in rest;
      }
      forall i | 0 <= i < |tail| ensures tail[i].key.id != store[0].key.id {
        assert tail[i] in tail;
        assert tail[i] in rest;
      }
    }
  }

  lemma {:induction false} InsertKeepsOrder(x: Item, s: seq<Item>)
    requires Descending(s) && forall y :: y in s ==> y.key != x.key
    ensures Descending(Insert(x, s))
    ensures forall y :: y in Insert(x, s) <==> y == x || y in s
  {
    hide Less;
    if s == [] {
    } else if Less(s[0].key, x.key) {
      var r := [x] + s;
      forall i, j | 0 <= i < j < |r| ensures Less(r[j].key, r[i].key) {
        if i == 0 && j > 1 {
          Transitive(s[j - 1].key, s[0].key, x.key);
        }
      }
    } else {
      Trichotomy(s[0].key, x.key);
      assert s[0] in s;
      var rest := s[1..];
      assert forall i :: 0 <= i < |rest| ==> rest[i] == s[i + 1];
      InsertKeepsOrder(x, rest);
      var tail := Insert(x, rest);
      var r := [s[0]] + tail;
      forall i, j | 0 <= i < j < |r| ensures Less(r[j].key, r[i].key) {
        assert r[j] in tail;
        if r[j] in rest {
          var k :| 0 <= k < |rest| && rest[k] == r[j];
          assert r[j] == s[k + 1];
        }
      }
      forall y ensures y in r <==> y == x || y in s {
        assert y in s <==> y == s[0] || y in rest;
      }
    }
  }

  lemma {:induction false} SortIsSorted(s: seq<Item>)
    requires DistinctIds(s)
    ensures Descending(SortDescending(s))
    ensures forall y :: y in SortDescending(s) <==> y in s
  {
    if s != [] {
      var rest := s[1..];
      assert forall i :: 0 <= i < |rest| ==> rest[i] == s[i + 1];
      SortIsSorted(rest);
      InsertKeepsOrder(s[0], SortDescending(rest));
      forall y ensures y in SortDescending(s) <==> y in s {
        assert y in s <==> y == s[0] || y in rest;
      }
    }
  }

  /** The listing a page is cut from. */
  function Ordered(store: seq<Item>, keep: Item -> bool, b: Boundary): seq<Item> {
    SortDescending(Filter(store, keep, b))
  }

  lemma OrderedLists(store: seq<Item>, keep: Item -> bool, b: Boundary)
    requires DistinctIds(store)
    ensures Lists(Ordered(store, keep, b), store, keep, b)
  {
    hide Matches, Descending, DistinctIds, Filter, SortDescending;
    FilterIsExact(store, keep, b);
    SortIsSorted(Filter(store, keep, b));
  }

  /** A descending listing is determined by what it lists. */
  lemma {:induction false} ListingUnique(s: seq<Item>, t: seq<Item>)
    requires Descending(s) && Descending(t) && forall x :: x in s <==> x in t
    ensures s == t
  {
    hide Less;
    assert forall i :: 0 <= i < |s| ==> s[i] in t;
    assert forall i :: 0 <= i < |t| ==> t[i] in s;
    if s != [] {
      assert s[0] in s && s[0] in t;
      assert t[0] in t && t[0] in s;
      Trichotomy(s[0].key, t[0].key);
      var i :| 0 <= i < |t| && t[i] == s[0];
      var j :| 0 <= j < |s| && s[j] == t[0];
      assert s[0] == t[0];
      forall x ensures x in s[1..] <==> x in t[1..] {
        TailHolds(s, x);
        TailHolds(t, x);
      }
      ListingUnique(s[1..], t[1..]);
      assert s == [s[0]] + s[1..] && t == [t[0]] + t[1..];
    }
  }

  lemma TailHolds(s: seq<Item>, x: Item)
    requires Descending(s) && s != []
    ensures x in s[1..] <==> x in s && x != s[0]
    ensures Descending(s[1..])
  {
    hide Less;
    var rest := s[1..];
    assert x in s <==> x == s[0] || x in rest;
    assert forall i :: 0 <= i < |rest| ==> rest[i] == s[i + 1];
    if x in rest {
      Trichotomy(x.key, s[0].key);
    }
  }

  /** Cutting a listing after `n` items: the rest is what lies below the last item kept. */
  lemma CutListing(s: seq<Item>, store: seq<Item>, keep: Item -> bool, b: Boundary, n: nat)
    requires Lists(s, store, keep, b) && 1 <= n <= |s|
    ensures Lists(s[n..], store, keep, Below(s[n - 1].key))
  {
    hide Less;
    var last, rest := s[n - 1], s[n..];
    assert last in s;
    assert forall i :: 0 <= i < |rest| ==> rest[i] == s[n + i];
    forall x ensures x in rest <==> x in store && Matches(x, keep, Below(last.key)) {
      if x in rest {
        assert x in s;
      }
      if x in store && Matches(x, keep, Below(last.key)) {
        if b.Below? {
          Transitive(x.key, last.key, b.key);
        }
        assert x in s;
        var i :| 0 <= i < |s| && s[i] == x;
        Trichotomy(x.key, last.key);
        assert i >= n;
        assert x == rest[i - n];
      }
    }
  }

  // ----------------------------------------------- following cursors to the end

  function Concat(pages: seq<seq<Item>>): seq<Item> {
    if pages == [] then [] else pages[0] + Concat(pages[1..])
  }

  /** `pages` are what successive reads return, the i-th from the store as it is then, each
      with the cursor of the one before, until a read returns no cursor. */
  ghost predicate Chain(codec: Codec, stores: seq<seq<Item>>, keep: Item -> bool, limit: int,
                                 cursor: Option<string>, pages: seq<seq<Item>>)
  {
    && |stores| == |pages| >= 1
    && var l := ListPage(codec, stores[0], keep, limit, cursor);
      && l.Page? && l.items == pages[0]
      && (if |stores| == 1 then l.next.None?
          else l.next.Some? && Chain(codec, stores[1..], keep, limit, l.next, pages[1..]))
  }

  /** Stores only gain items. */
  ghost predicate Growing(stores: seq<seq<Item>>) {
    && (forall i :: 0 <= i < |stores| ==> DistinctIds(stores[i]))
    && (forall i, j, x :: 0 <= i < j < |stores| && x in stores[i] ==> x in stores[j])
  }

  ghost predicate NotBelow(before: seq<Item>, after: seq<Item>, page: seq<Item>) {
    forall x :: x in after && x !in before && page != [] ==> !Less(x.key, page[|page| - 1].key)
  }

  /** What is inserted after a read is not below the last item that read returned. */
  ghost predicate OnlyNewer(stores: seq<seq<Item>>, pages: seq<seq<Item>>) {
    forall i, j | 0 <= i < |pages| && j == i + 1 < |stores| :: NotBelow(stores[i], stores[j], pages[i])
  }

  /** One read: the first page-full of the listing, and the boundary the next read starts below. */
  lemma PageIsHead(codec: Codec, store: seq<Item>, keep: Item -> bool, limit: int, cursor: Option<string>)
    requires Faithful(codec) && !DecodeCursor(codec, cursor).Invalid?
    ensures var l := ListPage(codec, store, keep, limit, cursor);
      var all, n := Ordered(store, keep, DecodeCursor(codec, cursor)), if limit < 1 then 1 else limit;
      && l.Page? && n == PageSize(limit)
      && (|all| <= n ==> l.items == all && l.next.None?)
      && (|all| > n ==> l.items == all[..n] && l.next.Some? && DecodeCursor(codec, l.next) == Below(all[n - 1].key))
  {
    hide Cursor, DecodeCursor, Filter, SortDescending;
    var all, n := Ordered(store, keep, DecodeCursor(codec, cursor)), PageSize(limit);
    if |all| > n {
      CursorRoundTrip(codec, all[n - 1].key);
      assert |all| > n + 1 ==> all[..n + 1][..n] == all[..n];
    }
  }

  lemma TailGrows(stores: seq<seq<Item>>)
    requires Growing(stores) && |stores| > 1
    ensures Growing(stores[1..])
  {
    hide DistinctIds;
    var rest := stores[1..];
    assert forall i :: 0 <= i < |rest| ==> rest[i] == stores[i + 1];
  }

  /** Joining a page with what follows below it. */
  lemma JoinDescending(page: seq<Item>, rest: seq<Item>)
    requires Descending(page) && Descending(rest) && page != []
    requires forall x :: x in rest ==> Less(x.key, page[|page| - 1].key)
    ensures Descending(page + rest)
  {
    hide Less;
    var s := page + rest;
    forall i, j | 0 <= i < j < |s| ensures Less(s[j].key, s[i].key) {
      if i < |page| <= j {
        assert s[j] == rest[j - |page|] && s[j] in rest;
        if i < |page| - 1 {
          Transitive(s[j].key, page[|page| - 1].key, page[i].key);
        }
      }
    }
  }

  /** Everything present at the first read is returned, once, in descending order; what else
      is returned was inserted meanwhile. */
  lemma {:induction false} EveryItemOnce(codec: Codec, stores: seq<seq<Item>>, keep: Item -> bool, limit: int,
                                            cursor: Option<string>, pages: seq<seq<Item>>)
    requires Faithful(codec) && Growing(stores) && Chain(codec, stores, keep, limit, cursor, pages)
    ensures Descending(Concat(pages))
    ensures forall x :: x in stores[0] && Matches(x, keep, DecodeCursor(codec, cursor)) ==> x in Concat(pages)
    ensures forall x :: x in Concat(pages) ==> x in stores[|stores| - 1] && Matches(x, keep, DecodeCursor(codec, cursor))
    decreases |pages|
  {
    hide Faithful, Matches, DecodeCursor, ListPage, Ordered, PageSize, Descending, DistinctIds, Less;
    var b := DecodeCursor(codec, cursor);
    var l := ListPage(codec, stores[0], keep, limit, cursor);
    var all, n := Ordered(stores[0], keep, b), PageSize(limit);
    NotInvalid(codec, stores[0], keep, limit, cursor);
    PageIsHead(codec, stores[0], keep, limit, cursor);
    OrderedLists(stores[0], keep, b);
    if |stores| == 1 {
      assert Concat(pages[1..]) == [] && Concat(pages) == pages[0] + [] == all;
    } else {
      EveryItemOnce(codec, stores[1..], keep, limit, l.next, pages[1..]) by { TailGrows(stores); }
      HeadAndRest(stores, keep, b, n, pages[0], Concat(pages[1..]));
    }
  }

  /** The same in the terms of a reader who starts at the first page: newest first, each of the
      items present at the start once, and only items that the reader asked for. */
  lemma ReadFromTheStart(codec: Codec, stores: seq<seq<Item>>, keep: Item -> bool, limit: int, pages: seq<seq<Item>>)
    requires Faithful(codec) && Growing(stores) && Chain(codec, stores, keep, limit, None, pages)
    ensures var read := Concat(pages);
      && (forall i, j :: 0 <= i < j < |read| ==> read[j].key.time <= read[i].key.time && read[i] != read[j])
      && (forall x :: x in stores[0] && keep(x) ==> x in read)
      && (forall x :: x in read ==> keep(x) && x in stores[|stores| - 1])
  {
    hide Faithful, Growing, Chain;
    EveryItemOnce(codec, stores, keep, limit, None, pages);
    var read := Concat(pages);
    forall i, j | 0 <= i < j < |read| ensures read[j].key.time <= read[i].key.time && read[i] != read[j] {
      assert Less(read[j].key, read[i].key);
      Trichotomy(read[j].key, read[i].key);
    }
  }

  lemma NotInvalid(codec: Codec, store: seq<Item>, keep: Item -> bool, limit: int, cursor: Option<string>)
    requires ListPage(codec, store, keep, limit, cursor).Page?
    ensures !DecodeCursor(codec, cursor).Invalid?
  {
  }

  /** The induction step of EveryItemOnce. */
  lemma HeadAndRest(stores: seq<seq<Item>>, keep: Item -> bool, b: Boundary, n: nat, page: seq<Item>, rest: seq<Item>)
    requires Growing(stores) && |stores| > 1 && Lists(Ordered(stores[0], keep, b), stores[0], keep, b)
    requires 1 <= n < |Ordered(stores[0], keep, b)| && page == Ordered(stores[0], keep, b)[..n]
    requires Descending(rest)
    requires forall x :: x in stores[1] && Matches(x, keep, Below(page[n - 1].key)) ==> x in rest
    requires forall x :: x in rest ==> x in stores[|stores| - 1] && Matches(x, keep, Below(page[n - 1].key))
    ensures Descending(page + rest)
    ensures forall x :: x in stores[0] && Matches(x, keep, b) ==> x in page + rest
    ensures forall x :: x in page + rest ==> x in stores[|stores| - 1] && Matches(x, keep, b)
  {
    hide Less, DistinctIds, Ordered;
    var all := Ordered(stores[0], keep, b);
    var last := page[n - 1];
    assert last in page && last in all;
    assert forall i :: 0 <= i < n ==> page[i] == all[i];
    JoinDescending(page, rest);
    CutListing(all, stores[0], keep, b, n);
    forall x | x in stores[0] && Matches(x, keep, b) ensures x in page + rest {
      assert x in all && all == page + all[n..];
      if x !in page {
        assert x in all[n..] && x in stores[1];
      }
    }
    forall x | x in page + rest ensures x in stores[|stores| - 1] && Matches(x, keep, b) {
      if x in page {
        assert x in all;
      } else if b.Below? {
        Transitive(x.key, last.key, b.key);
      }
    }
  }

  lemma FirstNewer(stores: seq<seq<Item>>, pages: seq<seq<Item>>)
    requires OnlyNewer(stores, pages) && |stores| == |pages| > 1
    ensures NotBelow(stores[0], stores[1], pages[0])
  {
  }

  lemma TailNewer(stores: seq<seq<Item>>, pages: seq<seq<Item>>)
    requires OnlyNewer(stores, pages) && |stores| == |pages| > 1
    ensures OnlyNewer(stores[1..], pages[1..])
  {
    hide NotBelow;
    var s, p := stores[1..], pages[1..];
    assert forall i :: 0 <= i < |s| ==> s[i] == stores[i + 1] && p[i] == pages[i + 1];
  }

  /** With only newer insertions, the pages together are the listing at the first read. */
  lemma {:induction false} PagesAreTheSnapshot(codec: Codec, stores: seq<seq<Item>>, keep: Item -> bool, limit: int,
                                                  cursor: Option<string>, pages: seq<seq<Item>>)
    requires Faithful(codec) && Growing(stores) && Chain(codec, stores, keep, limit, cursor, pages)
    requires OnlyNewer(stores, pages)
    ensures Concat(pages) == Ordered(stores[0], keep, DecodeCursor(codec, cursor))
    decreases |pages|
  {
    hide Faithful, Matches, DecodeCursor, ListPage, Ordered, PageSize, Descending, DistinctIds, Less, Lists, OnlyNewer;
    var b := DecodeCursor(codec, cursor);
    var l := ListPage(codec, stores[0], keep, limit, cursor);
    var all, n := Ordered(stores[0], keep, b), PageSize(limit);
    NotInvalid(codec, stores[0], keep, limit, cursor);
    PageIsHead(codec, stores[0], keep, limit, cursor);
    if |stores| == 1 {
      assert Concat(pages[1..]) == [] && Concat(pages) == pages[0] + [] == all;
    } else {
      var below := Below(all[n - 1].key);
      PagesAreTheSnapshot(codec, stores[1..], keep, limit, l.next, pages[1..]) by {
        TailGrows(stores);
        TailNewer(stores, pages);
      }
      OrderedLists(stores[0], keep, b);
      CutListing(all, stores[0], keep, b, n);
      OrderedLists(stores[1], keep, below);
      assert pages[0][|pages[0]| - 1] == all[n - 1];
      SameBelow(stores[0], stores[1], keep, all[n - 1].key, all[n..], Ordered(stores[1], keep, below)) by {
        FirstNewer(stores, pages);
      }
    }
  }

  lemma SameBelow(store: seq<Item>, later: seq<Item>, keep: Item -> bool, k: Key, s: seq<Item>, t: seq<Item>)
    requires Lists(s, store, keep, Below(k)) && Lists(t, later, keep, Below(k))
    requires forall x | x in store :: x in later
    requires forall x | x in later && x !in store :: !Less(x.key, k)
    ensures s == t
  {
    hide Less, Descending;
    ListingUnique(s, t);
  }

  /** On a store at rest the chain of cursors ends, and its pages are the whole listing. */
  lemma {:induction false} FollowToTheEnd(codec: Codec, store: seq<Item>, keep: Item -> bool, limit: int, cursor: Option<string>)
    returns (pages: seq<seq<Item>>)
    requires Faithful(codec) && DistinctIds(store) && !DecodeCursor(codec, cursor).Invalid?
    ensures |pages| >= 1 && Chain(codec, seq(|pages|, _ => store), keep, limit, cursor, pages)
    ensures Concat(pages) == Ordered(store, keep, DecodeCursor(codec, cursor))
    ensures forall i :: 0 <= i < |pages| - 1 ==> |pages[i]| == PageSize(limit)
    decreases |Ordered(store, keep, DecodeCursor(codec, cursor))|
  {
    hide Faithful, Matches, DecodeCursor, ListPage, Ordered, PageSize, Descending, DistinctIds, Less, Lists;
    var b := DecodeCursor(codec, cursor);
    var l := ListPage(codec, store, keep, limit, cursor);
    var all, n := Ordered(store, keep, b), PageSize(limit);
    PageIsHead(codec, store, keep, limit, cursor);
    if |all| <= n {
      pages := [l.items];
      assert Concat(pages) == all + Concat([]) == all;
    } else {
      var below := Below(all[n - 1].key);
      OrderedLists(store, keep, b);
      CutListing(all, store, keep, b, n);
      OrderedLists(store, keep, below);
      SameBelow(store, store, keep, all[n - 1].key, all[n..], Ordered(store, keep, below));
      var rest := FollowToTheEnd(codec, store, keep, limit, l.next);
      pages := [l.items] + rest;
      var stores := seq(|pages|, _ => store);
      assert stores[1..] == seq(|rest|, _ => store) && pages[1..] == rest;
    }
  }
}
