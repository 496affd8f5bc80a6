/**
 * What `handle_monday_list_items_in_groups` does with the accumulated items:
 * collapse them by id in a dict (last value wins, first insertion fixes the
 * position), render one line per item, sort the lines and put a count header
 * on top.
 */
module ItemsListing {
  import opened Common
  import opened StringOrder
  import opened ItemsPagination

  /** The ids that occur among `items`. */
  function IdSet(items: seq<Item>): set<string>
  {
    set x | x in items :: x.id
  }

  /** A Python dict keyed by item id: keys in insertion order, and the value stored under each. */
  datatype IdDict = IdDict(keys: seq<string>, byId: map<string, Item>)

  ghost predicate DictValid(d: IdDict)
  {
    (forall i, j :: 0 <= i < j < |d.keys| ==> d.keys[i] != d.keys[j])
    && (forall k :: k in d.byId <==> k in d.keys)
    && (forall k :: k in d.byId ==> d.byId[k].id == k)
  }

  /** `d[item["id"]] = item`: a new key goes last, an existing key keeps its place and takes the new value. */
  function Put(d: IdDict, item: Item): IdDict
  {
    if item.id in d.byId then IdDict(d.keys, d.byId[item.id := item])
    else IdDict(d.keys + [item.id], d.byId[item.id := item])
  }

  lemma PutKeepsValid(d: IdDict, item: Item)
    requires DictValid(d) && |d.keys| == |d.byId|
    ensures DictValid(Put(d, item))
    ensures Put(d, item).byId.Keys == d.byId.Keys + {item.id}
    ensures |Put(d, item).keys| == |Put(d, item).byId|
  {
    if item.id !in d.byId {
      assert d.byId[item.id := item].Keys == d.byId.Keys + {item.id};
    }
  }

  /** `{item["id"]: item for item in items}`. */
  function BuildDict(items: seq<Item>): (d: IdDict)
    ensures forall i :: 0 <= i < |d.keys| ==> d.keys[i] in d.byId
    ensures |d.keys| <= |items|
  {
    if items == [] then IdDict([], map[])
    else Put(BuildDict(items[..|items| - 1]), items[|items| - 1])
  }

  /** The id dict holds exactly the ids of the input. */
  lemma {:induction false} BuildDictKeys(items: seq<Item>)
    ensures BuildDict(items).byId.Keys == IdSet(items)
  {
    if items != [] {
      var front, last := items[..|items| - 1], items[|items| - 1];
      BuildDictKeys(front);
      assert IdSet(items) == IdSet(front) + {last.id} by {
        assert items == front + [last];
      }
      assert BuildDict(items).byId == BuildDict(front).byId[last.id := last];
    }
  }

  /** The id dict has no duplicate key and holds exactly the ids of the input, each under itself. */
  lemma {:induction false} BuildDictValid(items: seq<Item>)
    ensures DictValid(BuildDict(items))
    ensures BuildDict(items).byId.Keys == IdSet(items)
    ensures |BuildDict(items).keys| == |BuildDict(items).byId|
  {
    if items != [] {
      var front, last := items[..|items| - 1], items[|items| - 1];
      BuildDictValid(front);
      assert IdSet(items) == IdSet(front) + {last.id} by {
        assert items == front + [last];
      }
      PutKeepsValid(BuildDict(front), last);
    }
  }

  /** `.values()` of the dict, in key order. */
  function Dedup(items: seq<Item>): (r: seq<Item>)
    ensures |r| <= |items|
  {
    var d := BuildDict(items);
    seq(|d.keys|, i requires 0 <= i < |d.keys| => d.byId[d.keys[i]])
  }

  /** The deduplicated items carry the dict's keys, position by position. */
  lemma DedupIdsAreKeys(items: seq<Item>)
    ensures |Dedup(items)| == |BuildDict(items).keys|
    ensures forall i :: 0 <= i < |Dedup(items)| ==> Dedup(items)[i].id == BuildDict(items).keys[i]
  {
  }

  /** After dedup no id occurs twice. */
  lemma DedupIdsDistinct(items: seq<Item>)
    ensures forall i, j :: 0 <= i < j < |Dedup(items)| ==> Dedup(items)[i].id != Dedup(items)[j].id
  {
    BuildDictValid(items);
    DedupIdsAreKeys(items);
  }

  /** After dedup exactly the ids of the input remain, so their number is the number of distinct ids. */
  lemma DedupIdsExact(items: seq<Item>)
    ensures forall x :: x in IdSet(items) <==> exists i :: 0 <= i < |Dedup(items)| && Dedup(items)[i].id == x
    ensures |Dedup(items)| == |IdSet(items)|
  {
    var d := BuildDict(items);
    BuildDictValid(items);
    DedupIdsAreKeys(items);
    forall x | x in IdSet(items)
      ensures exists i :: 0 <= i < |Dedup(items)| && Dedup(items)[i].id == x
    {
      assert x in d.keys;
      var i :| 0 <= i < |d.keys| && d.keys[i] == x;
      assert Dedup(items)[i].id == x;
    }
  }

  /** `items[p]` is the last item among `items` whose id is `k`. */
  predicate LastWithId(items: seq<Item>, p: int, k: string)
  {
    0 <= p < |items| && items[p].id == k && forall q :: p < q < |items| ==> items[q].id != k
  }

  lemma LastWithIdInFront(items: seq<Item>, p: int, k: string)
    requires items != [] && items[|items| - 1].id != k
    requires LastWithId(items[..|items| - 1], p, k)
    ensures LastWithId(items, p, k) && items[p] == items[..|items| - 1][p]
  {
  }

  /** Every value the dict holds is the last item among `items` that has its id. */
  lemma {:induction false} DictHoldsLast(items: seq<Item>, k: string)
    requires k in BuildDict(items).byId
    ensures exists p :: LastWithId(items, p, k) && items[p] == BuildDict(items).byId[k]
  {
    assert items != [];
    var front, last := items[..|items| - 1], items[|items| - 1];
    var d0 := BuildDict(front);
    assert BuildDict(items) == Put(d0, last);
    if last.id == k {
      assert LastWithId(items, |items| - 1, k);
    } else {
      assert BuildDict(items).byId[k] == d0.byId[k];
      DictHoldsLast(front, k);
      var p :| LastWithId(front, p, k) && front[p] == d0.byId[k];
      LastWithIdInFront(items, p, k);
    }
  }

  /** Duplicates collapse to the value of their last occurrence: the i-th kept item is the last one with its id. */
  lemma DedupLastWins(items: seq<Item>, i: int)
    requires 0 <= i < |Dedup(items)|
    ensures exists p :: LastWithId(items, p, Dedup(items)[i].id) && items[p] == Dedup(items)[i]
  {
    var d := BuildDict(items);
    BuildDictValid(items);
    var k := d.keys[i];
    assert k in d.byId;
    assert Dedup(items)[i] == d.byId[k] && d.byId[k].id == k;
    DictHoldsLast(items, k);
  }

  function ColumnTexts(cols: seq<ColumnValue>): (r: seq<string>)
    ensures |r| == |cols|
  {
    seq(|cols|, i requires 0 <= i < |cols| => cols[i].id + ": " + cols[i].text)
  }

  /** `"<name> (ID: <id>)"`, followed by the item's columns in the order the service returned them. */
  function ItemLine(item: Item, withColumns: bool): (r: string)
    ensures item.name + " (ID: " + item.id + ")" <= r
    ensures r == item.name + " (ID: " + item.id + ")" <==> !(withColumns && |item.columnValues| > 0)
  {
    var base := item.name + " (ID: " + item.id + ")";
    if withColumns && |item.columnValues| > 0 then base + " - " + Join(", ", ColumnTexts(item.columnValues))
    else base
  }

  /**
   * With columns shown, the line is the base, `" - "`, then each column as
   * `id: text` in the order the service returned them, separated by `", "`,
   * the last one ending the line.
   */
  lemma ItemLineColumns(item: Item, i: nat)
    requires i < |item.columnValues|
    ensures var line, base, cols := ItemLine(item, true), item.name + " (ID: " + item.id + ")", item.columnValues;
            var col, k := cols[i].id + ": " + cols[i].text, |base + " - "| + JoinOffset(", ", ColumnTexts(cols), i);
            && OccursAt(" - ", line, |base|)
            && OccursAt(col, line, k)
            && (i + 1 < |cols| ==>
                  OccursAt(", ", line, k + |col|)
                  && |base + " - "| + JoinOffset(", ", ColumnTexts(cols), i + 1) == k + |col| + 2)
            && (i + 1 == |cols| ==> k + |col| == |line|)
  {
    var base, cols := item.name + " (ID: " + item.id + ")", item.columnValues;
    var texts := ColumnTexts(cols);
    var joined := Join(", ", texts);
    ItemLineWithColumns(item);
    assert OccursAt(" - ", " - ", 0);
    OccursInside(" - ", base, " - ", joined, 0);
    assert texts[i] == cols[i].id + ": " + cols[i].text;
    JoinLayoutAfter(base + " - ", ", ", texts, i);
  }

  lemma ItemLineWithColumns(item: Item)
    requires |item.columnValues| > 0
    ensures ItemLine(item, true) == item.name + " (ID: " + item.id + ")" + " - " + Join(", ", ColumnTexts(item.columnValues))
  {
  }

  function ItemLines(items: seq<Item>, withColumns: bool): (r: seq<string>)
    ensures |r| == |items|
  {
    seq(|items|, i requires 0 <= i < |items| => ItemLine(items[i], withColumns))
  }

  /** `f"Items ({n})："` with the full-width colon, then a newline. */
  function Header(n: nat): (r: string)
    ensures |r| > 10 && r[..7] == "Items (" && r[|r| - 3..] == ")\U{FF1A}\n"
    ensures var digits := r[7..|r| - 3];
            && (forall i :: 0 <= i < |digits| ==> '0' <= digits[i] <= '9')
            && (|digits| > 1 ==> digits[0] != '0')
            && DecimalValue(digits) == n
  {
    var digits := NatToString(n);
    var r := "Items (" + digits + ")\U{FF1A}\n";
    assert r[7..|r| - 3] == digits;
    DecimalRoundTrip(n);
    r
  }

  /** The text the handler returns for the accumulated `items`. */
  function ListingText(items: seq<Item>, withColumns: bool): (r: string)
    ensures Header(|Dedup(items)|) <= r
  {
    var lines := SortLines(ItemLines(Dedup(items), withColumns));
    Header(|lines|) + Join("\n", lines)
  }

  /** The rendering loops and `result_lines.sort()` over the deduplicated items. */
  method RenderItems(unique: seq<Item>, withColumns: bool) returns (lines: seq<string>, text: string)
    ensures Sorted(lines)
    ensures multiset(lines) == multiset(ItemLines(unique, withColumns))
    ensures text == Header(|unique|) + Join("\n", lines)
  {
    lines := [];
    for i := 0 to |unique|
      invariant lines == ItemLines(unique[..i], withColumns)
    {
      assert unique[..i + 1] == unique[..i] + [unique[i]];
      lines := lines + [ItemLine(unique[i], withColumns)];
    }
    assert unique[..|unique|] == unique;
    SortLinesSorted(lines);
    lines := SortLines(lines);
    assert |lines| == |unique|;
    text := Header(|unique|) + Join("\n", lines);
  }

  /** `handle_monday_list_items_in_groups` with the service as the oracle `responses`. */
  method ListItemsInGroups(boardId: string, groupIds: seq<string>, limit: int, cursor: Option<string>,
                           columnIds: seq<string>, responses: seq<ItemsResponse>)
    returns (text: string, requests: seq<ItemsRequest>)
    requires Terminates(responses)
    ensures |requests| == StopIndex(responses) + 1
    ensures requests[0] == BuildItemsRequest(boardId, groupIds, cursor, limit, columnIds)
    ensures forall k :: 0 < k < |requests| ==>
              requests[k] == BuildItemsRequest(boardId, groupIds, responses[k - 1].cursor, limit, columnIds)
    ensures forall k :: 0 < k < |requests| ==> requests[k].params == Continue(responses[k - 1].cursor)
    ensures text == ListingText(Collected(responses[..|requests|]), |columnIds| > 0)
  {
    var allItems;
    allItems, requests := FetchAllPages(boardId, groupIds, limit, cursor, columnIds, responses);
    var unique := Dedup(allItems);
    var lines;
    lines, text := RenderItems(unique, |columnIds| > 0);
    var spec := SortLines(ItemLines(unique, |columnIds| > 0));
    SortLinesSorted(ItemLines(unique, |columnIds| > 0));
    SortedUnique(lines, spec);
  }

  /**
   * The listing has one sorted line per distinct id, each the rendering of
   * that id's last value, and its header counts the distinct ids.
   */
  lemma ListingShape(items: seq<Item>, withColumns: bool)
    ensures var lines := SortLines(ItemLines(Dedup(items), withColumns));
            && ListingText(items, withColumns) == Header(|IdSet(items)|) + Join("\n", lines)
            && Sorted(lines)
            && multiset(lines) == multiset(ItemLines(Dedup(items), withColumns))
  {
    var lines := SortLines(ItemLines(Dedup(items), withColumns));
    SortLinesSorted(ItemLines(Dedup(items), withColumns));
    DedupIdsExact(items);
  }

  /** The listing does not depend on the order in which the rendered lines arrived. */
  lemma ListingDeterministic(a: seq<Item>, b: seq<Item>, withColumns: bool)
    requires multiset(ItemLines(Dedup(a), withColumns)) == multiset(ItemLines(Dedup(b), withColumns))
    ensures ListingText(a, withColumns) == ListingText(b, withColumns)
  {
    SortLinesDeterministic(ItemLines(Dedup(a), withColumns), ItemLines(Dedup(b), withColumns));
  }

  /** The ids of `items`, in order. */
  function Ids(items: seq<Item>): (r: seq<string>)
    ensures |r| == |items|
  {
    seq(|items|, i requires 0 <= i < |items| => items[i].id)
  }

  predicate DistinctIds(items: seq<Item>)
  {
    forall i, j :: 0 <= i < j < |items| ==> items[i].id != items[j].id
  }

  /** An item with a new id is appended to the deduplicated items. */
  lemma DedupAppendNew(items: seq<Item>, x: Item)
    requires x.id !in IdSet(items)
    ensures Dedup(items + [x]) == Dedup(items) + [x]
  {
    var d0 := BuildDict(items);
    BuildDictKeys(items);
    assert (items + [x])[..|items|] == items;
    var d := IdDict(d0.keys + [x.id], d0.byId[x.id := x]);
    assert BuildDict(items + [x]) == d;
    var u, v := Dedup(items + [x]), Dedup(items) + [x];
    assert |u| == |v|;
    forall i | 0 <= i < |u| ensures u[i] == v[i] {
      if i < |d0.keys| {
        assert d.keys[i] == d0.keys[i];
      }
    }
  }

  /**
   * An item whose id is already kept replaces the kept item in its place:
   * the position the first insertion fixed does not move.
   */
  lemma DedupReplaceRepeated(items: seq<Item>, x: Item, i: int)
    requires 0 <= i < |Dedup(items)| && Dedup(items)[i].id == x.id
    ensures Dedup(items + [x]) == Dedup(items)[i := x]
  {
    var d0 := BuildDict(items);
    BuildDictValid(items);
    DedupIdsAreKeys(items);
    assert d0.keys[i] == x.id;
    assert (items + [x])[..|items|] == items;
    var d := IdDict(d0.keys, d0.byId[x.id := x]);
    assert BuildDict(items + [x]) == d;
    var u, v := Dedup(items + [x]), Dedup(items)[i := x];
    assert |u| == |v|;
    forall j | 0 <= j < |u| ensures u[j] == v[j] {
      if j != i {
        assert d0.keys[j] != x.id;
      }
    }
  }

  lemma DistinctFront(items: seq<Item>)
    requires items != [] && DistinctIds(items)
    ensures DistinctIds(items[..|items| - 1])
    ensures items[|items| - 1].id !in IdSet(items[..|items| - 1])
  {
  }

  /** With no repeated id, the dict's keys are the ids in input order. */
  lemma {:induction false} BuildDictKeysDistinct(items: seq<Item>)
    requires DistinctIds(items)
    ensures BuildDict(items).keys == Ids(items)
  {
    if items != [] {
      var front, last := items[..|items| - 1], items[|items| - 1];
      DistinctFront(items);
      BuildDictKeysDistinct(front);
      var d0 := BuildDict(front);
      BuildDictKeys(front);
      assert BuildDict(items) == Put(d0, last);
      assert last.id !in d0.byId;
      assert Ids(items) == Ids(front) + [last.id];
    }
  }

  /** Deduplication is the identity on items whose ids are already distinct. */
  lemma DedupDistinct(items: seq<Item>)
    requires DistinctIds(items)
    ensures Dedup(items) == items
  {
    BuildDictKeysDistinct(items);
    BuildDictValid(items);
    var d := BuildDict(items);
    forall i | 0 <= i < |items| ensures Dedup(items)[i] == items[i] {
      DictHoldsLast(items, items[i].id);
      var p :| LastWithId(items, p, items[i].id) && items[p] == d.byId[items[i].id];
      assert p == i;
    }
  }

  /** Rendering is item by item, so it splits along a concatenation. */
  lemma ItemLinesAppend(a: seq<Item>, b: seq<Item>, withColumns: bool)
    ensures ItemLines(a + b, withColumns) == ItemLines(a, withColumns) + ItemLines(b, withColumns)
  {
    var l, r := ItemLines(a + b, withColumns), ItemLines(a, withColumns) + ItemLines(b, withColumns);
    forall i | 0 <= i < |l| ensures l[i] == r[i] {
      if i < |a| {
        assert (a + b)[i] == a[i];
      } else {
        assert (a + b)[i] == b[i - |a|];
      }
    }
  }

  lemma RemoveAt(b: seq<Item>, j: int)
    requires 0 <= j < |b|
    ensures multiset(b[..j] + b[j + 1..]) == multiset(b) - multiset{b[j]}
  {
    assert b == b[..j] + [b[j]] + b[j + 1..];
    assert multiset(b[..j] + b[j + 1..]) == multiset(b[..j]) + multiset(b[j + 1..]);
  }

  /** Taking one item out of the items takes its line out of the lines. */
  lemma ItemLinesRemoveAt(b: seq<Item>, j: int, withColumns: bool)
    requires 0 <= j < |b|
    ensures multiset(ItemLines(b, withColumns))
            == multiset(ItemLines(b[..j] + b[j + 1..], withColumns)) + multiset{ItemLine(b[j], withColumns)}
  {
    var before, after := b[..j], b[j + 1..];
    assert b == before + [b[j]] + after;
    ItemLinesAppend(before + [b[j]], after, withColumns);
    ItemLinesAppend(before, [b[j]], withColumns);
    ItemLinesAppend(before, after, withColumns);
  }

  lemma DropFirst(a: seq<Item>)
    requires a != []
    ensures multiset(a[1..]) == multiset(a) - multiset{a[0]}
  {
    assert a == [a[0]] + a[1..];
  }

  lemma ItemLinesFirst(a: seq<Item>, withColumns: bool)
    requires a != []
    ensures multiset(ItemLines(a, withColumns))
            == multiset(ItemLines(a[1..], withColumns)) + multiset{ItemLine(a[0], withColumns)}
  {
    ItemLinesAppend([a[0]], a[1..], withColumns);
    assert [a[0]] + a[1..] == a;
  }

  /** Rendering a rearrangement of the items gives a rearrangement of the lines. */
  lemma {:induction false} ItemLinesPermutation(a: seq<Item>, b: seq<Item>, withColumns: bool)
    requires multiset(a) == multiset(b)
    ensures multiset(ItemLines(a, withColumns)) == multiset(ItemLines(b, withColumns))
  {
    if a == [] {
      assert |b| == |multiset(b)| == 0;
    } else {
      assert a[0] in multiset(b);
      var j :| 0 <= j < |b| && b[j] == a[0];
      RemoveAt(b, j);
      DropFirst(a);
      ItemLinesFirst(a, withColumns);
      ItemLinesPermutation(a[1..], b[..j] + b[j + 1..], withColumns);
      ItemLinesRemoveAt(b, j, withColumns);
    }
  }

  /** With distinct ids an item occurs at most once. */
  lemma {:induction false} DistinctOccursOnce(a: seq<Item>, x: Item)
    requires DistinctIds(a)
    ensures multiset(a)[x] <= 1
  {
    if a != [] {
      var front := a[..|a| - 1];
      DistinctFront(a);
      DistinctOccursOnce(front, x);
      assert a == front + [a[|a| - 1]];
      if a[|a| - 1] == x {
        assert x !in front;
      }
    }
  }

  /** A rearrangement of items with distinct ids still has distinct ids. */
  lemma DistinctIdsPermutation(a: seq<Item>, b: seq<Item>)
    requires DistinctIds(a) && multiset(a) == multiset(b)
    ensures DistinctIds(b)
  {
    forall i, j | 0 <= i < j < |b| ensures b[i].id != b[j].id {
      if b[i] == b[j] {
        assert b == b[..j] + [b[j]] + b[j + 1..];
        assert b[i] in b[..j];
        DistinctOccursOnce(a, b[i]);
      } else {
        assert b[i] in multiset(a) && b[j] in multiset(a);
        var p :| 0 <= p < |a| && a[p] == b[i];
        var q :| 0 <= q < |a| && a[q] == b[j];
        assert p != q;
      }
    }
  }

  /**
   * When no id repeats, the listing does not depend on the order in which
   * the items arrived: every rearrangement of them gives the same text.
   */
  lemma ListingOrderIndependent(a: seq<Item>, b: seq<Item>, withColumns: bool)
    requires DistinctIds(a) && multiset(a) == multiset(b)
    ensures ListingText(a, withColumns) == ListingText(b, withColumns)
  {
    DistinctIdsPermutation(a, b);
    DedupDistinct(a);
    DedupDistinct(b);
    ItemLinesPermutation(a, b, withColumns);
    ListingDeterministic(a, b, withColumns);
  }

  /** Two items with one id collapse to the one that arrived last. */
  lemma DedupRepeatedPair(x: Item, y: Item)
    requires x.id == y.id
    ensures Dedup([x, y]) == [y]
  {
    assert [x, y][..1] == [x];
    assert [x][..0] == [];
    assert BuildDict([x]) == IdDict([x.id], map[x.id := x]);
    assert BuildDict([x, y]) == IdDict([x.id], map[x.id := y]);
  }

  /**
   * The order independence needs distinct ids: two items sharing an id but
   * rendered differently give different listings in the two arrival orders,
   * because the later one wins.
   */
  lemma RepeatedIdOrderMatters(x: Item, y: Item)
    requires x.id == y.id && x.name != [] && y.name != [] && x.name[0] != y.name[0]
    ensures ListingText([x, y], false) != ListingText([y, x], false)
  {
    DedupRepeatedPair(x, y);
    DedupRepeatedPair(y, x);
    var lx, ly := ItemLine(x, false), ItemLine(y, false);
    assert ItemLines([y], false) == [ly] && ItemLines([x], false) == [lx];
    assert SortLines([ly]) == [ly] && SortLines([lx]) == [lx];
    var h := Header(1);
    assert ListingText([x, y], false) == h + ly && ListingText([y, x], false) == h + lx;
    assert (h + ly)[|h|] == y.name[0] && (h + lx)[|h|] == x.name[0];
  }

  lemma ScenarioPages(rs: seq<ItemsResponse>, items: seq<Item>)
    requires |items| == 3
    requires rs == [Page(items[..2], Some("c1")), Page(items[2..], None)]
    ensures Terminates(rs) && StopIndex(rs) == 1
    ensures Collected(rs[..StopIndex(rs) + 1]) == items
  {
    assert Stops(rs[1]);
    assert rs[..2] == rs;
    assert rs[..1][..0] == [];
    assert Collected(rs[..1]) == items[..2];
    assert rs[..|rs| - 1] == rs[..1];
    assert items[..2] + items[2..] == items;
  }

  lemma SortThreeByFirstChar(x: string, y: string, z: string)
    requires x != [] && y != [] && z != [] && y[0] < z[0] < x[0]
    ensures SortLines([x, y, z]) == [y, z, x]
  {
    var sorted := [y, z, x];
    assert LessEq(sorted[0], sorted[1]) && LessEq(sorted[1], sorted[2]) && LessEq(sorted[0], sorted[2]);
    assert Sorted(sorted);
    assert multiset([x, y, z]) == multiset(sorted);
    SortLinesSorted([x, y, z]);
    SortedUnique(SortLines([x, y, z]), sorted);
  }

  lemma ScenarioDedup(items: seq<Item>, c: Item, a: Item, b: Item)
    requires items == [c, a, b] && c.id != a.id && c.id != b.id && a.id != b.id
    ensures ItemLines(Dedup(items), false) == [ItemLine(c, false), ItemLine(a, false), ItemLine(b, false)]
  {
    assert DistinctIds(items);
    DedupDistinct(items);
  }

  /** Three items with distinct ids whose names start with 'C', 'A' and 'B' are listed as A, B, C. */
  lemma ScenarioLines(items: seq<Item>, c: Item, a: Item, b: Item)
    requires items == [c, a, b] && c.id != a.id && c.id != b.id && a.id != b.id
    requires c.name != [] && a.name != [] && b.name != []
    requires a.name[0] == 'A' && b.name[0] == 'B' && c.name[0] == 'C'
    ensures SortLines(ItemLines(Dedup(items), false)) == [ItemLine(a, false), ItemLine(b, false), ItemLine(c, false)]
  {
    ScenarioDedup(items, c, a, b);
    assert ItemLine(a, false)[0] == 'A' && ItemLine(b, false)[0] == 'B' && ItemLine(c, false)[0] == 'C';
    SortThreeByFirstChar(ItemLine(c, false), ItemLine(a, false), ItemLine(b, false));
  }

  lemma ScenarioText(lines: seq<string>)
    requires |lines| == 3
    ensures Header(|lines|) + Join("\n", lines)
            == "Items (" + "3" + ")\U{FF1A}\n" + lines[0] + "\n" + lines[1] + "\n" + lines[2]
  {
    assert NatToString(3) == "3";
    assert Join("\n", lines[2..]) == lines[2];
  }

  /**
   * Board B1, group G1, limit 2: a first page with two items and cursor "c1",
   * a second page with one item and no cursor. The run sends a group filter
   * and then the cursor, and renders a header counting three items followed
   * by the three lines in ascending order.
   */
  lemma TwoPageScenario(rs: seq<ItemsResponse>)
    requires rs == [Page([Item("1", "Charlie", []), Item("2", "Alice", [])], Some("c1")),
                    Page([Item("3", "Bob", [])], None)]
    ensures Terminates(rs) && StopIndex(rs) == 1
    ensures BuildItemsRequest("B1", ["G1"], None, 2, []).params == GroupFilter(["G1"])
    ensures BuildItemsRequest("B1", ["G1"], rs[0].cursor, 2, []).params == Continue(Some("c1"))
    ensures ListingText(Collected(rs[..StopIndex(rs) + 1]), false)
            == "Items (" + "3" + ")\U{FF1A}\n" + ("Alice" + " (ID: " + "2" + ")") + "\n"
               + ("Bob" + " (ID: " + "3" + ")") + "\n" + ("Charlie" + " (ID: " + "1" + ")")
  {
    var c, a, b := Item("1", "Charlie", []), Item("2", "Alice", []), Item("3", "Bob", []);
    var items := [c, a, b];
    assert items[..2] == rs[0].items && items[2..] == rs[1].items;
    ScenarioPages(rs, items);
    ScenarioLines(items, c, a, b);
    ScenarioText(SortLines(ItemLines(Dedup(items), false)));
  }
}
