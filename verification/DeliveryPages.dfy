/** Listing deliveries page by page: `ListDeliveries` (pkg/net/webhookout/store_mem.go) and the cursor that the HTTP
    handler hands out (pkg/core/webhook_out.go). */
module DeliveryPages {
  import opened Wrappers
  import Delivery

  datatype Record = Record(id: string, target: string, event: string, status: Delivery.Status, created: int)

  datatype Filter = Filter(target: Option<string>, event: Option<string>, status: Option<Delivery.Status>,
                           from: Option<int>, to: Option<int>, limit: int, cursor: string)

  predicate Selects(f: Filter, d: Record) {
    && (f.target.Some? ==> d.target == f.target.value)
    && (f.event.Some? ==> d.event == f.event.value)
    && (f.status.Some? ==> d.status == f.status.value)
    && (f.from.Some? ==> d.created >= f.from.value)
    && (f.to.Some? ==> d.created <= f.to.value)
  }

  // ---------- the order ----------

  /** Go's `<` on strings. */
  predicate Less(a: string, b: string) {
    b != [] && (a == [] || a[0] < b[0] || (a[0] == b[0] && Less(a[1..], b[1..])))
  }

  predicate Before(a: Record, b: Record) {
    if a.created == b.created then Less(a.id, b.id) else a.created < b.created
  }

  lemma {:induction false} LessIsTotal(a: string, b: string)
    ensures Less(a, b) || Less(b, a) || a == b
    ensures !(Less(a, b) && Less(b, a)) && !Less(a, a)
  {
    if a == [] {
    } else {
      LessIsTotal(a[1..], a[1..]);
    }
    if a != [] && b != [] && a[0] == b[0] {
      LessIsTotal(a[1..], b[1..]);
      assert a == [a[0]] + a[1..] && b == [b[0]] + b[1..];
    }
  }

  /** The order is lexicographic: at the first difference the smaller character decides, and a prefix comes first. */
  lemma {:induction false} LessExactly(a: string, b: string)
    ensures Less(a, b) <==> exists k :: 0 <= k <= |a| && k < |b| && a[..k] == b[..k] && (k == |a| || a[k] < b[k])
  {
    if a != [] && b != [] && a[0] == b[0] {
      LessExactly(a[1..], b[1..]);
      if Less(a, b) {
        var k :| 0 <= k <= |a[1..]| && k < |b[1..]| && a[1..][..k] == b[1..][..k]
                 && (k == |a[1..]| || a[1..][k] < b[1..][k]);
        assert a[..k + 1] == [a[0]] + a[1..][..k] && b[..k + 1] == [b[0]] + b[1..][..k];
        assert k + 1 == |a| || a[k + 1] < b[k + 1];
      }
      if k :| 0 <= k <= |a| && k < |b| && a[..k] == b[..k] && (k == |a| || a[k] < b[k]) {
        assert k > 0 && a[1..][..k - 1] == a[..k][1..] && b[1..][..k - 1] == b[..k][1..];
        assert k - 1 == |a[1..]| || a[1..][k - 1] < b[1..][k - 1];
      }
    } else {
      assert a[..0] == b[..0] == [];
      forall k | 0 < k <= |a| && k < |b|
        ensures a[..k] != b[..k]
      {
        assert a[..k][0] == a[0] && b[..k][0] == b[0];
      }
      if Less(a, b) {
        assert 0 == |a| || a[0] < b[0];
      }
    }
  }

  lemma {:induction false} LessIsTransitive(a: string, b: string, c: string)
    requires Less(a, b) && Less(b, c)
    ensures Less(a, c)
  {
    if a != [] && a[0] == b[0] && b[0] == c[0] {
      LessIsTransitive(a[1..], b[1..], c[1..]);
    }
  }

  lemma BeforeIsTransitive(a: Record, b: Record, c: Record)
    requires Before(a, b) && Before(b, c)
    ensures Before(a, c)
  {
    if a.created == b.created == c.created {
      LessIsTransitive(a.id, b.id, c.id);
    }
  }

  /** Each record comes before the next ones; so no two are alike. */
  ghost predicate Sorted(list: seq<Record>) {
    forall i, j :: 0 <= i < j < |list| ==> Before(list[i], list[j])
  }

  /** What a listing is: the selected records of the store in (created, id) order, each once. */
  ghost predicate IsListing(list: seq<Record>, deliveries: map<string, Record>, f: Filter) {
    && Sorted(list)
    && (forall d :: d in list <==> d.id in deliveries && deliveries[d.id] == d && Selects(f, d))
  }

  /** A sorted list is determined by its members. */
  lemma {:induction false} SortedIsUnique(a: seq<Record>, b: seq<Record>)
    requires Sorted(a) && Sorted(b) && (forall d :: d in a <==> d in b)
    ensures a == b
    decreases |a|
  {
    if b != [] {
      SomeIn(b, a);
    }
    if a == [] {
    } else {
      SomeIn(a, b);
      HeadsAgree(a, b);
      forall d ensures d in a[1..] <==> d in b[1..]
      {
        InTail(a, d);
        InTail(b, d);
      }
      SortedIsUnique(a[1..], b[1..]);
    }
  }

  lemma SomeIn(a: seq<Record>, b: seq<Record>)
    requires a != [] && forall d :: d in a ==> d in b
    ensures a[0] in b && b != []
  {
    assert a[0] in a;
  }

  lemma HeadsAgree(a: seq<Record>, b: seq<Record>)
    requires Sorted(a) && Sorted(b) && a != [] && b != [] && a[0] in b && b[0] in a
    ensures a[0] == b[0]
  {
    LessIsTotal(a[0].id, b[0].id);
  }

  lemma InTail(a: seq<Record>, d: Record)
    requires Sorted(a) && a != []
    ensures d in a[1..] <==> d in a && d != a[0]
  {
    LessIsTotal(a[0].id, a[0].id);
  }

  lemma ListingIsUnique(a: seq<Record>, b: seq<Record>, deliveries: map<string, Record>, f: Filter)
    requires IsListing(a, deliveries, f) && IsListing(b, deliveries, f)
    ensures a == b
  {
    SortedIsUnique(a, b);
  }

  // ---------- one page ----------

  /** The page size in force. */
  function PageSize(limit: int): (n: nat)
    ensures 1 <= n <= 200
  {
    if limit <= 0 || limit > 200 then 50 else limit
  }

  /** The first position from `i` on whose id folds like the cursor's; the end if there is none. */
  function FirstMatch(list: seq<Record>, fold: string -> string, cursor: string, i: nat): (p: nat)
    requires i <= |list|
    ensures i <= p <= |list|
    ensures p < |list| ==> fold(list[p].id) == fold(cursor)
    ensures forall k :: i <= k < p ==> fold(list[k].id) != fold(cursor)
    decreases |list| - i
  {
    if i == |list| || fold(list[i].id) == fold(cursor) then i else FirstMatch(list, fold, cursor, i + 1)
  }

  /** Where the page after a cursor starts: an empty or unknown cursor starts over. */
  function Start(list: seq<Record>, fold: string -> string, cursor: string): (s: nat)
    ensures s <= |list|
  {
    if cursor == "" then 0
    else
      var p := FirstMatch(list, fold, cursor, 0);
      if p == |list| then 0 else p + 1
  }

  function PageEnd(list: seq<Record>, start: nat, size: nat): (e: nat)
    requires start <= |list|
  {
    if start + size > |list| then |list| else start + size
  }

  /** The page of a listing that a filter's limit and cursor ask for. */
  function PageOf(list: seq<Record>, fold: string -> string, f: Filter): seq<Record> {
    var s := Start(list, fold, f.cursor);
    list[s..PageEnd(list, s, PageSize(f.limit))]
  }

  /** The in-memory store, keyed by id; `fold` picks the representative of a case-folding class. */
  class MemStore {
    const fold: string -> string
    var deliveries: map<string, Record>

    ghost predicate Valid()
      reads `deliveries
    {
      forall id :: id in deliveries ==> deliveries[id].id == id
    }

    constructor (fold: string -> string)
      ensures Valid() && this.fold == fold && deliveries == map[]
    {
      this.fold, deliveries := fold, map[];
    }

    method CreateDelivery(d: Record, now: int)
      requires Valid()
      modifies `deliveries
      ensures Valid() && deliveries.Keys == old(deliveries).Keys + {d.id} && deliveries[d.id] == d.(created := now)
      ensures forall id :: id in old(deliveries) && id != d.id ==> deliveries[id] == old(deliveries)[id]
    {
      deliveries := deliveries[d.id := d.(created := now)];
    }

    /** The page after the cursor; the store is left alone. */
    method ListDeliveries(f: Filter) returns (page: seq<Record>)
      requires Valid()
      ensures exists list :: IsListing(list, deliveries, f) && page == PageOf(list, fold, f)
      ensures forall list :: IsListing(list, deliveries, f) ==> page == PageOf(list, fold, f)
      ensures forall d :: d in page ==>
        && d.id in deliveries && deliveries[d.id] == d
        && (f.target == None || f.target == Some(d.target)) && (f.event == None || f.event == Some(d.event))
        && (f.status == None || f.status == Some(d.status))
        && (f.from == None || f.from.value <= d.created) && (f.to == None || d.created <= f.to.value)
      ensures forall i, j :: 0 <= i < j < |page| ==>
        page[i].created < page[j].created || (page[i].created == page[j].created && Less(page[i].id, page[j].id))
      ensures |page| <= if 0 < f.limit <= 200 then f.limit else 50
      ensures f.cursor == "" ==>
        forall id :: id in deliveries && deliveries[id] !in page ==>
          var d := deliveries[id];
          || (f.target != None && f.target != Some(d.target)) || (f.event != None && f.event != Some(d.event))
          || (f.status != None && f.status != Some(d.status))
          || (f.from != None && d.created < f.from.value) || (f.to != None && f.to.value < d.created)
          || (|page| == (if 0 < f.limit <= 200 then f.limit else 50)
              && forall p :: p in page ==>
                   p.created < d.created || (p.created == d.created && Less(p.id, d.id)))
    {
      hide IsListing, Before, Less, FirstMatch, Start;
      var limit := if f.limit <= 0 || f.limit > 200 then 50 else f.limit;
      var all := Collect(f);
      var start := After(all, f.cursor);
      var end := start + limit;
      if end > |all| {
        end := |all|;
      }
      page := all[start..end];
      PageTells(all, deliveries, fold, f);
      forall list | IsListing(list, deliveries, f)
        ensures list == all
      {
        ListingIsUnique(list, all, deliveries, f);
      }
    }

    /** The position after the first id that folds like the cursor. */
    method After(all: seq<Record>, cursor: string) returns (start: nat)
      ensures start == Start(all, fold, cursor)
    {
      start := 0;
      if cursor != "" {
        var i := 0;
        while i < |all|
          invariant 0 <= i <= |all|
          invariant FirstMatch(all, fold, cursor, 0) == FirstMatch(all, fold, cursor, i)
        {
          if fold(all[i].id) == fold(cursor) {
            return i + 1;
          }
          i := i + 1;
        }
      }
    }

    /** The selected records, visited in any order and put in their place. */
    method Collect(f: Filter) returns (all: seq<Record>)
      requires Valid()
      ensures IsListing(all, deliveries, f)
    {
      all := [];
      var keys := deliveries.Keys;
      while keys != {}
        invariant keys <= deliveries.Keys && Sorted(all)
        invariant forall d :: d in all <==>
          d.id in deliveries && d.id !in keys && deliveries[d.id] == d && Selects(f, d)
        decreases |keys|
      {
        var id :| id in keys;
        keys := keys - {id};
        var d := deliveries[id];
        if Selects(f, d) {
          all := Insert(all, d);
        }
      }
    }
  }

  /** What a page is, apart from the way it is made. */
  lemma PageTells(all: seq<Record>, deliveries: map<string, Record>, fold: string -> string, f: Filter)
    requires IsListing(all, deliveries, f)
    ensures var page := PageOf(all, fold, f);
            && (forall d :: d in page ==>
                  && d.id in deliveries && deliveries[d.id] == d
                  && (f.target == None || f.target == Some(d.target)) && (f.event == None || f.event == Some(d.event))
                  && (f.status == None || f.status == Some(d.status))
                  && (f.from == None || f.from.value <= d.created) && (f.to == None || d.created <= f.to.value))
            && (forall i, j :: 0 <= i < j < |page| ==>
                  || page[i].created < page[j].created
                  || (page[i].created == page[j].created && Less(page[i].id, page[j].id)))
            && |page| <= (if 0 < f.limit <= 200 then f.limit else 50)
            && (f.cursor == "" ==>
                  forall id :: id in deliveries && deliveries[id].id == id && deliveries[id] !in page ==>
                    var d := deliveries[id];
                    || (f.target != None && f.target != Some(d.target)) || (f.event != None && f.event != Some(d.event))
                    || (f.status != None && f.status != Some(d.status))
                    || (f.from != None && d.created < f.from.value) || (f.to != None && f.to.value < d.created)
                    || (|page| == (if 0 < f.limit <= 200 then f.limit else 50)
                        && forall p :: p in page ==>
                             p.created < d.created || (p.created == d.created && Less(p.id, d.id))))
  {
    hide Less, Start;
    var page := PageOf(all, fold, f);
    InOrder(all, Start(all, fold, f.cursor), PageEnd(all, Start(all, fold, f.cursor), PageSize(f.limit)));
    if f.cursor == "" {
      FirstPage(all, fold, f);
    }
  }

  lemma InOrder(all: seq<Record>, start: nat, end: nat)
    requires Sorted(all) && start <= end <= |all|
    ensures Sorted(all[start..end]) && forall d :: d in all[start..end] ==> d in all
  {
    hide Before;
    var page := all[start..end];
    forall i, j | 0 <= i < j < |page|
      ensures Before(page[i], page[j])
    {
      assert Before(all[start + i], all[start + j]);
    }
  }

  /** Only a full first page leaves something out, and that comes after all of the page. */
  lemma FirstPage(all: seq<Record>, fold: string -> string, f: Filter)
    requires Sorted(all) && f.cursor == ""
    ensures var page := PageOf(all, fold, f);
            forall d :: d in all && d !in page ==> |page| == PageSize(f.limit) && forall p :: p in page ==> Before(p, d)
  {
    hide Before;
    var page := PageOf(all, fold, f);
    assert forall j :: 0 <= j < |page| ==> all[j] == page[j];
    forall d | d in all && d !in page
      ensures |page| == PageSize(f.limit) && forall p :: p in page ==> Before(p, d)
    {
      var j :| 0 <= j < |all| && all[j] == d;
    }
  }

  /** Puts a record with a new id where it belongs. */
  method Insert(list: seq<Record>, d: Record) returns (r: seq<Record>)
    requires Sorted(list) && forall x :: x in list ==> x.id != d.id
    ensures Sorted(r) && forall x :: x in r <==> x in list || x == d
  {
    var i := 0;
    while i < |list| && Before(list[i], d)
      invariant 0 <= i <= |list|
      invariant forall k :: 0 <= k < i ==> Before(list[k], d)
    {
      i := i + 1;
    }
    if i < |list| {
      LessIsTotal(list[i].id, d.id);
      forall k | i <= k < |list|
        ensures Before(d, list[k])
      {
        if k > i {
          BeforeIsTransitive(d, list[i], list[k]);
        }
      }
    }
    r := list[..i] + [d] + list[i..];
  }

  // ---------- following the cursor ----------

  /** How the handler trims a cursor, and how the store folds the case of ids. */
  datatype Text = Text(fold: string -> string, trim: string -> string)

  /** What a client collects that first asks without a cursor, and then sends the last id of each page as the next
      cursor until a page is empty, if it gets there within `n` pages. */
  function Fetch(list: seq<Record>, text: Text, size: nat, n: nat): Option<seq<Record>>
    requires size > 0
  {
    Walk(list, text, size, 0, n)
  }

  function Walk(list: seq<Record>, text: Text, size: nat, start: nat, n: nat): Option<seq<Record>>
    requires size > 0 && start <= |list|
    decreases n
  {
    var end := PageEnd(list, start, size);
    if start == end then Some([])
    else if n == 0 then None
    else
      var rest := Walk(list, text, size, Start(list, text.fold, text.trim(list[end - 1].id)), n - 1);
      if rest.None? then None else Some(list[start..end] + rest.value)
  }

  /** The id at this position leads back here: trimmed it is not empty, still folds like the id, and folds like no
      earlier one. */
  ghost predicate Stands(list: seq<Record>, text: Text, p: nat)
    requires p < |list|
  {
    var cursor := text.trim(list[p].id);
    && cursor != "" && text.fold(cursor) == text.fold(list[p].id)
    && forall i :: 0 <= i < p ==> text.fold(list[i].id) != text.fold(cursor)
  }

  function Offset(size: nat, k: nat): nat {
    size * k
  }

  lemma OffsetGrows(size: nat, j: nat, k: nat)
    requires j <= k
    ensures Offset(size, j) <= Offset(size, k) && Offset(size, k + 1) == Offset(size, k) + size
  {
  }

  /** Where page `k` begins when the list is cut into pages. */
  function PageStart(list: seq<Record>, size: nat, k: nat): (s: nat)
    ensures s <= |list|
  {
    if Offset(size, k) > |list| then |list| else Offset(size, k)
  }

  /** The last id of each page, from page `q` on, leads back to its place. */
  ghost predicate PageEndsStand(list: seq<Record>, text: Text, size: nat, q: nat)
    requires size > 0
  {
    forall k: nat :: q <= k && PageStart(list, size, k) < |list| ==>
      Stands(list, text, PageEnd(list, PageStart(list, size, k), size) - 1)
  }

  lemma StartStands(list: seq<Record>, text: Text, p: nat)
    requires p < |list|
    ensures Start(list, text.fold, text.trim(list[p].id)) == p + 1 <==> Stands(list, text, p)
  {
  }

  lemma NextPage(list: seq<Record>, size: nat, q: nat)
    requires size > 0
    ensures PageEnd(list, PageStart(list, size, q), size) == PageStart(list, size, q + 1)
    ensures forall k: nat :: k >= q ==> PageStart(list, size, k) >= PageStart(list, size, q)
  {
    OffsetGrows(size, q, q);
    forall k: nat | k >= q
      ensures PageStart(list, size, k) >= PageStart(list, size, q)
    {
      OffsetGrows(size, q, k);
    }
  }

  /** Pages from `q` on stand if page `q` does, unless it is past the end, and the later ones do. */
  lemma PagesFrom(list: seq<Record>, text: Text, size: nat, q: nat)
    requires size > 0
    ensures PageEndsStand(list, text, size, q) <==>
            PageStart(list, size, q) == |list| || (
              PageEndsStand(list, text, size, q + 1)
              && Stands(list, text, PageEnd(list, PageStart(list, size, q), size) - 1))
  {
    hide Stands, PageStart, PageEnd;
    NextPage(list, size, q);
  }

  lemma {:induction false} WalkDelivers(list: seq<Record>, text: Text, size: nat, q: nat, n: nat)
    requires size > 0 && n >= |list| - PageStart(list, size, q)
    requires PageEndsStand(list, text, size, q)
    ensures Walk(list, text, size, PageStart(list, size, q), n) == Some(list[PageStart(list, size, q)..])
    decreases n
  {
    hide Start, PageStart, PageEndsStand, Stands;
    var start := PageStart(list, size, q);
    if start < |list| {
      NextPage(list, size, q);
      PagesFrom(list, text, size, q);
      var end := PageEnd(list, start, size);
      StartStands(list, text, end - 1);
      WalkDelivers(list, text, size, q + 1, n - 1);
      assert list[start..end] + list[end..] == list[start..];
    }
  }

  /** If the rest of a walk is the rest of the list, the cursor led to the next page. */
  lemma CursorLedOn(list: seq<Record>, text: Text, size: nat, next: nat, end: nat, n: nat)
    requires size > 0 && next <= |list| && end <= |list| && Sorted(list)
    requires Walk(list, text, size, next, n) == Some(list[end..])
    ensures next == end
  {
    hide Start, Sorted;
    if next < |list| {
      var to := PageEnd(list, next, size);
      var rest := Walk(list, text, size, Start(list, text.fold, text.trim(list[to - 1].id)), n - 1);
      assert list[end..] == list[next..to] + rest.value;
      assert list[end..][0] == list[next];
      SamePlace(list, next, end);
    } else {
      assert list[end..] == [];
    }
  }

  lemma WalkStep(list: seq<Record>, text: Text, size: nat, start: nat, n: nat)
    requires size > 0 && start < |list|
    requires Walk(list, text, size, start, n) == Some(list[start..])
    ensures var end := PageEnd(list, start, size);
            var next := Start(list, text.fold, text.trim(list[end - 1].id));
            n > 0 && Walk(list, text, size, next, n - 1) == Some(list[end..])
  {
    hide Start;
    var end := PageEnd(list, start, size);
    var rest := Walk(list, text, size, Start(list, text.fold, text.trim(list[end - 1].id)), n - 1);
    assert list[start..] == list[start..end] + list[end..];
    assert (list[start..end] + rest.value)[end - start..] == rest.value;
  }

  lemma {:induction false} DeliveredStands(list: seq<Record>, text: Text, size: nat, q: nat, n: nat)
    requires size > 0 && Sorted(list)
    requires Walk(list, text, size, PageStart(list, size, q), n) == Some(list[PageStart(list, size, q)..])
    ensures PageEndsStand(list, text, size, q)
    decreases n
  {
    hide Start, PageStart, Stands, Sorted, PageEndsStand, Walk;
    PagesFrom(list, text, size, q);
    var start := PageStart(list, size, q);
    NextPage(list, size, q);
    if start < |list| {
      var end := PageEnd(list, start, size);
      var next := Start(list, text.fold, text.trim(list[end - 1].id));
      WalkStep(list, text, size, start, n);
      CursorLedOn(list, text, size, next, end, n - 1);
      StartStands(list, text, end - 1);
      DeliveredStands(list, text, size, q + 1, n - 1);
    }
  }

  lemma SamePlace(list: seq<Record>, i: nat, j: nat)
    requires Sorted(list) && i < |list| && j < |list| && list[i] == list[j]
    ensures i == j
  {
    LessIsTotal(list[i].id, list[i].id);
  }

  /** Following the cursor from the start yields exactly the listing, each record once and in order, if and only if
      the id at the end of every page leads back to it. */
  lemma PagesExactly(list: seq<Record>, text: Text, size: nat)
    requires size > 0 && Sorted(list)
    ensures (exists n: nat :: Fetch(list, text, size, n) == Some(list)) <==> PageEndsStand(list, text, size, 0)
  {
    hide PageEndsStand, Sorted;
    assert list[0..] == list && PageStart(list, size, 0) == 0;
    if PageEndsStand(list, text, size, 0) {
      WalkDelivers(list, text, size, 0, |list|);
      assert Fetch(list, text, size, |list|) == Some(list);
    }
    forall n: nat | Fetch(list, text, size, n) == Some(list)
      ensures PageEndsStand(list, text, size, 0)
    {
      DeliveredStands(list, text, size, 0, n);
    }
  }

  /** Ids that are not empty, that trimming leaves alone and that differ even when folded, such as the hexadecimal ids
      the service makes, are enough for every page size, and one request a record suffices. */
  lemma DistinctIdsAreEnough(list: seq<Record>, text: Text, size: nat, n: nat)
    requires size > 0 && Sorted(list) && n >= |list|
    requires forall i :: 0 <= i < |list| ==> text.trim(list[i].id) == list[i].id != ""
    requires forall i, j :: 0 <= i < j < |list| ==> text.fold(list[i].id) != text.fold(list[j].id)
    ensures Fetch(list, text, size, n) == Some(list)
  {
    assert PageStart(list, size, 0) == 0 && list[0..] == list;
    WalkDelivers(list, text, size, 0, n);
  }

  function Plain(id: string, created: int): Record {
    Record(id, "t", "e", Delivery.Pending, created)
  }

  /** Two ids that differ only in case: the second page comes again for ever. */
  lemma CaseMattersToPages(n: nat)
    ensures var list, text := [Plain("A", 1), Plain("a", 2)], Text(s => if s == "A" then "a" else s, s => s);
            Sorted(list) && Fetch(list, text, 1, n) != Some(list)
  {
    var list, text := [Plain("A", 1), Plain("a", 2)], Text(s => if s == "A" then "a" else s, s => s);
    assert Offset(1, 1) == 1 && PageStart(list, 1, 1) == 1 && PageEnd(list, 1, 1) == 2;
    assert text.trim(list[1].id) == "a" && text.fold("a") == "a" == text.fold(list[0].id);
    assert !Stands(list, text, 1);
    PagesExactly(list, text, 1);
  }

  /** One id that begins with a space, which the handler trims away: the first page comes again for ever. */
  lemma SpaceMattersToPages(n: nat)
    ensures var list, text := [Plain(" a", 1)], Text(s => s, s => if s == " a" then "a" else s);
            Sorted(list) && Fetch(list, text, 1, n) != Some(list)
  {
    var list, text := [Plain(" a", 1)], Text(s => s, s => if s == " a" then "a" else s);
    assert PageStart(list, 1, 0) == 0 && PageEnd(list, 0, 1) == 1;
    assert text.trim(list[0].id) == "a" && text.fold("a") == "a" && text.fold(" a") == " a";
    assert "a"[0] != " a"[0];
    assert !Stands(list, text, 0);
    PagesExactly(list, text, 1);
  }
}
