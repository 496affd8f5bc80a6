/**
 * Listing the items of board groups page by page: the shape of each
 * `items_page` request and the loop that fetches pages until the service
 * stops handing out a cursor or answers with something unexpected.
 *
 * The remote client is an oracle: `responses[k]` is the answer to the k-th
 * request of the run.
 */
module ItemsPagination {
  import opened Common

  datatype ColumnValue = ColumnValue(id: string, text: string)

  /** An item as the service returns it; `columnValues` is empty when the field is absent. */
  datatype Item = Item(id: string, name: string, columnValues: seq<ColumnValue>)

  /** The `items_page(...)` arguments: a group filter or a continuation cursor. */
  datatype PageParams =
    | GroupFilter(groupIds: seq<string>)
    | Continue(cursor: Option<string>)

  /** The `column_values(ids: [...]) { id text }` sub-request, or none. */
  datatype ColumnProjection = NoColumns | Columns(ids: seq<string>)

  datatype ItemsRequest = ItemsRequest(boardId: string, params: PageParams, limit: int, columns: ColumnProjection)

  /** One answer of the service: a well-shaped page, or anything else. */
  datatype ItemsResponse =
    | Page(items: seq<Item>, cursor: Option<string>)
    | Malformed

  /** The request sent while the loop's current cursor is `cursor`. */
  function BuildItemsRequest(boardId: string, groupIds: seq<string>, cursor: Option<string>,
                             limit: int, columnIds: seq<string>): (r: ItemsRequest)
    ensures r.boardId == boardId && r.limit == limit
    ensures r.params.GroupFilter? <==> |groupIds| > 0 && !Truthy(cursor)
    ensures r.params.GroupFilter? ==> r.params.groupIds == groupIds
    ensures r.params.Continue? ==> r.params.cursor == cursor
    ensures r.columns.Columns? <==> |columnIds| > 0
    ensures r.columns.Columns? ==> r.columns.ids == columnIds
  {
    var columns := if |columnIds| > 0 then Columns(columnIds) else NoColumns;
    var params := if |groupIds| > 0 && !Truthy(cursor) then GroupFilter(groupIds) else Continue(cursor);
    ItemsRequest(boardId, params, limit, columns)
  }

  /** The loop ends after this answer: it is malformed, or its cursor is falsy. */
  predicate Stops(r: ItemsResponse)
  {
    r.Malformed? || !Truthy(r.cursor)
  }

  /** Some answer in the run ends the loop. */
  predicate Terminates(responses: seq<ItemsResponse>)
  {
    exists i :: 0 <= i < |responses| && Stops(responses[i])
  }

  /** The index of the answer that ends the loop: the first one that stops it. */
  function StopIndex(responses: seq<ItemsResponse>): (i: nat)
    requires Terminates(responses)
    ensures i < |responses| && Stops(responses[i])
    ensures forall j :: 0 <= j < i ==> !Stops(responses[j])
  {
    if Stops(responses[0]) then 0
    else
      assert Terminates(responses[1..]) by {
        var i :| 0 <= i < |responses| && Stops(responses[i]);
        assert responses[1..][i - 1] == responses[i];
      }
      1 + StopIndex(responses[1..])
  }

  /** The items of the well-shaped pages among `rs`, in order. */
  function Collected(rs: seq<ItemsResponse>): seq<Item>
  {
    if rs == [] then []
    else
      var last := rs[|rs| - 1];
      Collected(rs[..|rs| - 1]) + (if last.Page? then last.items else [])
  }

  /**
   * The pagination loop. Returns the accumulated items and the requests it
   * sent, one per answer consumed.
   */
  method FetchAllPages(boardId: string, groupIds: seq<string>, limit: int, cursor: Option<string>,
                       columnIds: seq<string>, responses: seq<ItemsResponse>)
    returns (allItems: seq<Item>, requests: seq<ItemsRequest>)
    requires Terminates(responses)
    ensures |requests| == StopIndex(responses) + 1
    ensures requests[0] == BuildItemsRequest(boardId, groupIds, cursor, limit, columnIds)
    ensures forall k :: 0 < k < |requests| ==>
              responses[k - 1].Page? && Truthy(responses[k - 1].cursor) &&
              requests[k] == BuildItemsRequest(boardId, groupIds, responses[k - 1].cursor, limit, columnIds)
    ensures forall k :: 0 < k < |requests| ==> requests[k].params == Continue(responses[k - 1].cursor)
    ensures allItems == Collected(responses[..|requests|])
  {
    var nextCursor := cursor;
    allItems, requests := [], [];
    var i := 0;
    while true
      invariant 0 <= i <= StopIndex(responses)
      invariant |requests| == i
      invariant allItems == Collected(responses[..i])
      invariant i == 0 ==> nextCursor == cursor
      invariant i > 0 ==> responses[i - 1].Page? && nextCursor == responses[i - 1].cursor
      invariant forall k :: 0 <= k < i ==>
                  requests[k] == BuildItemsRequest(boardId, groupIds, if k == 0 then cursor else responses[k - 1].cursor,
                                                   limit, columnIds)
      decreases StopIndex(responses) - i
    {
      var request := BuildItemsRequest(boardId, groupIds, nextCursor, limit, columnIds);
      assert request == BuildItemsRequest(boardId, groupIds, if i == 0 then cursor else responses[i - 1].cursor,
                                          limit, columnIds);
      requests := requests + [request];
      var response := responses[i];
      assert responses[..i + 1][..i] == responses[..i];
      match response {
        case Malformed =>
          break;
        case Page(items, pageCursor) =>
          allItems := allItems + items;
          nextCursor := pageCursor;
          if !Truthy(nextCursor) {
            break;
          }
      }
      i := i + 1;
    }
  }

  /** An item is accumulated exactly when some well-shaped page among `rs` returned it. */
  lemma {:induction false} CollectedMembers(rs: seq<ItemsResponse>, x: Item)
    ensures x in Collected(rs) <==> exists k :: 0 <= k < |rs| && rs[k].Page? && x in rs[k].items
  {
    if rs != [] {
      var front := rs[..|rs| - 1];
      CollectedMembers(front, x);
      if x in Collected(rs) && x !in Collected(front) {
        assert rs[|rs| - 1].Page? && x in rs[|rs| - 1].items;
      }
      if exists k :: 0 <= k < |rs| && rs[k].Page? && x in rs[k].items {
        var k :| 0 <= k < |rs| && rs[k].Page? && x in rs[k].items;
        if k < |rs| - 1 {
          assert front[k] == rs[k];
        }
      }
    }
  }

  /**
   * Pages P1..Pn where P1..Pn-1 carry a cursor and Pn does not: the run sends
   * exactly n requests, whatever the service would answer afterwards.
   */
  lemma StopAfterLastPage(pages: seq<ItemsResponse>, later: seq<ItemsResponse>)
    requires |pages| > 0 && forall k :: 0 <= k < |pages| ==> pages[k].Page?
    requires forall k :: 0 <= k < |pages| - 1 ==> Truthy(pages[k].cursor)
    requires !Truthy(pages[|pages| - 1].cursor)
    ensures Terminates(pages + later)
    ensures StopIndex(pages + later) == |pages| - 1
    ensures (pages + later)[..StopIndex(pages + later) + 1] == pages
  {
    var rs := pages + later;
    assert Stops(rs[|pages| - 1]);
    assert rs[..|pages|] == pages;
  }

  /** An answer that ends the run early keeps everything accumulated before it. */
  lemma {:induction false} CollectedPrefix(rs: seq<ItemsResponse>, n: nat)
    requires n <= |rs|
    ensures Collected(rs[..n]) <= Collected(rs)
  {
    if n < |rs| {
      var front := rs[..|rs| - 1];
      CollectedPrefix(front, n);
      assert front[..n] == rs[..n];
    } else {
      assert rs[..n] == rs;
    }
  }
}
