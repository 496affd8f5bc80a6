# Monday.com item handlers, modelled in Dafny

This project models the item handlers of the Monday.com MCP server
(`src/mcp_server_monday/item.py`). It covers four pieces:

- **Listing the items of board groups** (`handle_monday_list_items_in_groups`).
  The handler builds an `items_page` request, either a group filter or a
  continuation cursor, with an optional column projection. It keeps fetching
  pages until the service hands out no cursor or gives an answer of the wrong
  shape. It then collapses the items by id in a Python dict: the first
  insertion fixes the position and the last insertion gives the value. Each
  item becomes a line `name (ID: id)`, optionally followed by its column
  texts. The lines are sorted with Python's string order, and a header
  `Items (n)：` goes on top.
- **Resolving an item id from a member's name** (`get_item_id_by_name`). The
  result is the id of the first item of the group whose name, stripped and
  lower-cased, equals the stripped, lower-cased target.
- **Reading an item's updates** (`handle_monday_get_item_updates`). This
  covers:
  - the argument rule (an id, or a member name with board and group, or a
    usage message);
  - the updates query, with attachment fields only on request;
  - the "no updates" answer;
  - `strip_html`, which is `re.sub('<.*?>', '', …)`;
  - the text block of each update.
- **The argument rule of item creation** (`handle_monday_create_item`).
  Exactly one of a group id and a parent item id must be given. A group id
  leads to `create_item`, and the new id is read under that key. A parent id
  leads to `create_subitem`, read likewise under its own key.

The remote client is an oracle throughout:

- The paginator receives `responses[k]`, the answer to its k-th request.
- The name lookup receives the group's items.
- The updates handler receives the updates response.

The methods return the requests or calls they would send, so their order
and contents are part of each contract.

The modules are:

- `Common`: options, Python truthiness, `str.join`, `str(int)`.
- `StringOrder`: Python's order on `str`, and `list.sort()` as an insertion
  sort.
- `ItemsPagination`: the request shape and the paging loop.
- `ItemsListing`: dedup, rendering and the whole handler.
- `NameResolver`
- `Markup`: `strip_html`.
- `ItemUpdates`
- `CreateItem`

Some details of the code are easy to miss:

- The column suffix of a line lists the columns in the order the service
  returned them, not in the order of the requested ids.
- The listing header ends in a full-width colon (`：`, U+FF1A).
- Cursor mode is used whenever there is no group id, even with no cursor.
  In that case the request carries the cursor `None`.
- An exception raised by the client call at line 62 is not caught by the
  loop. Only an answer of the wrong shape ends the loop early and keeps what
  was collected so far.
- The attachment section is introduced by `"\nAttachments:\n"`.

## Model

| member | source | states |
|---|---|---|
| ItemsPagination.BuildItemsRequest | src/mcp_server_monday/item.py:26-47 | A group filter is sent exactly when there are group ids and the cursor is falsy. Otherwise the request carries the cursor as it is. A column projection appears exactly when column ids were given, and carries them. Board id and limit are passed through. |
| ItemsPagination.StopIndex | src/mcp_server_monday/item.py:62-71 | The run ends at the first answer that is malformed or has a falsy cursor. |
| ItemsPagination.Collected | src/mcp_server_monday/item.py:64-66 | The items of the well-shaped pages, in page order; CollectedMembers and CollectedPrefix state what it holds. |
| ItemsPagination.FetchAllPages | src/mcp_server_monday/item.py:34-71 | The loop sends one request per answer up to and including the first stopping one. The first request uses the caller's cursor. Each later request continues from the previous page's truthy cursor. The accumulated items are the concatenation of all pages read. |
| ItemsPagination.CollectedMembers | src/mcp_server_monday/item.py:64-66 | An item is accumulated if and only if some well-shaped page returned it. |
| ItemsPagination.StopAfterLastPage | src/mcp_server_monday/item.py:67-69 | Given n pages where only the last lacks a cursor, exactly n requests are sent. The answers consumed are those pages, whatever would follow. |
| ItemsPagination.CollectedPrefix | src/mcp_server_monday/item.py:70-71 | A run that stops early keeps a prefix of what a longer run accumulates. |
| ItemsListing.BuildDictKeys | src/mcp_server_monday/item.py:73 | The id dict's keys are exactly the ids of the input. |
| ItemsListing.BuildDictValid | src/mcp_server_monday/item.py:73 | The key order has no duplicate. Each key maps to an item with that id. The key order and the dict hold the same keys. |
| ItemsListing.DedupIdsDistinct | src/mcp_server_monday/item.py:73 | After dedup no id occurs twice. |
| ItemsListing.DedupIdsExact | src/mcp_server_monday/item.py:73 | After dedup every input id occurs, and nothing else. The count equals the number of distinct ids. |
| ItemsListing.DedupLastWins | src/mcp_server_monday/item.py:73 | Each deduplicated item is the last input item carrying its id. |
| ItemsListing.DedupAppendNew | src/mcp_server_monday/item.py:73 | An item with an unseen id is appended after the items already kept. |
| ItemsListing.DedupReplaceRepeated | src/mcp_server_monday/item.py:73 | An item whose id is already kept replaces the kept item in its place; no other item changes and the order stays as the first insertions fixed it. |
| ItemsListing.BuildDict | src/mcp_server_monday/item.py:73 | The dict comprehension keyed by id: every key in the insertion order is in the dict, and there are no more keys than items. BuildDictKeys and BuildDictValid give the rest. |
| ItemsListing.Dedup | src/mcp_server_monday/item.py:73 | `.values()` of that dict, never longer than the input. DedupIdsExact, DedupIdsDistinct and DedupLastWins say which items it keeps; DedupAppendNew and DedupReplaceRepeated fix their first-insertion order. |
| ItemsListing.DedupDistinct | src/mcp_server_monday/item.py:73 | Items whose ids are already distinct come through dedup unchanged and in order. |
| ItemsListing.RenderItems | src/mcp_server_monday/item.py:76-107 | The lines are sorted and are a permutation of the rendered items. The text is the count header followed by the lines joined with newlines. |
| ItemsListing.ItemLine | src/mcp_server_monday/item.py:79-86 | A line starts with `name (ID: id)`. It is exactly that when columns were not requested or the item has none, as at line 100; otherwise the column suffix follows (ItemLineColumns). |
| ItemsListing.ItemLineColumns | src/mcp_server_monday/item.py:79-86 | With columns shown, `" - "` follows the base, then each column as `id: text` at increasing positions in the order the service returned them, with `", "` between neighbours and the last one ending the line. |
| ItemsListing.Header | src/mcp_server_monday/item.py:93 | The header is `Items (`, then decimal digits without a leading zero, then `)：` and a newline. The digits read back as the count. |
| ItemsListing.ListingText | src/mcp_server_monday/item.py:73-107 | The text starts with the header counting the deduplicated items. ListingShape gives the lines. |
| ItemsListing.ListItemsInGroups | src/mcp_server_monday/item.py:12-107 | The handler sends the same requests as the paging loop: the first with the caller's cursor, every later one in cursor mode continuing from the previous page. Its text is the listing of the items of the pages it read. |
| ItemsListing.ListingShape | src/mcp_server_monday/item.py:73-107 | The header counts the distinct ids. The lines are sorted and are a permutation of the renderings of the deduplicated items. |
| ItemsListing.ListingDeterministic | src/mcp_server_monday/item.py:89-101 | Two runs whose rendered lines agree as a multiset produce the same text. |
| ItemsListing.ItemLinesPermutation | src/mcp_server_monday/item.py:76-86 | Two item sequences that are permutations of each other render to permutations of each other's lines. |
| ItemsListing.DistinctIdsPermutation | src/mcp_server_monday/item.py:73 | A permutation of items with distinct ids also has distinct ids. |
| ItemsListing.ListingOrderIndependent | src/mcp_server_monday/item.py:73-107 | When the fetched items have distinct ids, the order in which they arrive does not change the listing. |
| ItemsListing.DedupRepeatedPair | src/mcp_server_monday/item.py:73 | Two items with the same id collapse to the second one. |
| ItemsListing.RepeatedIdOrderMatters | src/mcp_server_monday/item.py:73 | With a repeated id the order does matter: two items sharing an id whose names start differently give different listings in the two orders, because the last one wins. |
| ItemsListing.TwoPageScenario | src/mcp_server_monday/item.py:12-107 | Two pages (Charlie and Alice with cursor c1, then Bob without a cursor): the run stops after the second page. It sends a group filter, then the cursor. It lists Alice, Bob and Charlie under `Items (3)：`. |
| ItemsListing.SortThreeByFirstChar | src/mcp_server_monday/item.py:101 | Three lines with different first characters are sorted by those characters. |
| StringOrder.SortLines | src/mcp_server_monday/item.py:89 | Sorting returns a permutation of its input. |
| StringOrder.SortLinesSorted | src/mcp_server_monday/item.py:101 | Sorting returns lines in ascending Python string order. |
| StringOrder.SortedUnique | src/mcp_server_monday/item.py:101 | Two sorted permutations of the same lines are equal, so the sorted result is unique. |
| StringOrder.SortLinesDeterministic | src/mcp_server_monday/item.py:101 | Sorting depends only on the multiset of lines, not on their arrival order. |
| StringOrder.LessEqTotal | src/mcp_server_monday/item.py:101 | Any two strings are comparable. |
| StringOrder.LessEqAntisymmetric | src/mcp_server_monday/item.py:101 | Strings that are each at most the other are equal. |
| StringOrder.LessEqTransitive | src/mcp_server_monday/item.py:101 | The string order is transitive. |
| Common.NatToString | src/mcp_server_monday/item.py:93 | The count is written as a non-empty string of decimal digits without a leading zero. |
| Common.DecimalRoundTrip | src/mcp_server_monday/item.py:105 | The count written into the header reads back as the count. |
| Common.JoinLayout | src/mcp_server_monday/item.py:85 | `sep.join(parts)` holds each part at its offset, one separator between neighbours, the next part right after it, and the last part ends the text. |
| NameResolver.StripShape | src/mcp_server_monday/item.py:266 | `strip()` returns a slice of its input with only whitespace cut away on either side. The result neither starts nor ends with whitespace. |
| NameResolver.Lower | src/mcp_server_monday/item.py:266 | `lower()` keeps the length, leaves no upper-case ASCII letter, and changes each character at most in its case. |
| NameResolver.LowerEqIff | src/mcp_server_monday/item.py:266 | Two strings lower-case to the same string exactly when they have the same length and agree character by character up to ASCII case. |
| NameResolver.Strip | src/mcp_server_monday/item.py:266 | `strip()` on the ASCII whitespace `str.isspace()` accepts; StripShape states its result. |
| NameResolver.NameKey | src/mcp_server_monday/item.py:266 | The key `strip().lower()` is no longer than the name and has no upper-case ASCII letter. |
| NameResolver.FirstMatch | src/mcp_server_monday/item.py:265-268 | The scan for the first item whose key matches; FirstMatchIsFirst states its result. |
| NameResolver.FirstMatchIsFirst | src/mcp_server_monday/item.py:265-268 | With a match, the result is the id of the first item whose key matches, and no earlier item matches. Without one, the result is None, and that happens exactly when no item matches. |
| NameResolver.GetItemIdByName | src/mcp_server_monday/item.py:247-268 | The scan with its early return yields the first matching id, or None exactly when nothing matches. |
| NameResolver.FirstMatchIgnoresRest | src/mcp_server_monday/item.py:265-267 | Items after the first match never influence the result. |
| NameResolver.FirstMatchByKey | src/mcp_server_monday/item.py:266 | Target names that agree after `strip().lower()` resolve to the same id. |
| NameResolver.SpacingAndCaseIgnored | src/mcp_server_monday/item.py:266 | `" Alice "`, `"ALICE"` and `"alice"` share one comparison key. |
| Markup.TagEndIsShortestMatch | src/mcp_server_monday/item.py:319 | A match of `<.*?>` ends at the first `>` after the `<`, and only if no newline comes before it. With no such `>`, every later `>` has a newline before it. |
| Markup.StripHtml | src/mcp_server_monday/item.py:318-320 | `re.sub('<.*?>', '', text)` as a left-to-right scan; StripHtmlPlainPrefix, StripHtmlTagPrefix and StripHtmlBrokenTagPrefix together fix its result on every input, and the lemmas below state its other properties. |
| Markup.StripHtmlLeavesNoTag | src/mcp_server_monday/item.py:318-320 | The stripped text contains nothing the pattern still matches. |
| Markup.StripHtmlNoTag | src/mcp_server_monday/item.py:318-320 | Text without a tag is returned unchanged. |
| Markup.StripHtmlIdempotent | src/mcp_server_monday/item.py:318-320 | Stripping twice is the same as stripping once. |
| Markup.StripHtmlShrinks | src/mcp_server_monday/item.py:318-320 | Stripping never lengthens the text. |
| Markup.StripHtmlPlainPrefix | src/mcp_server_monday/item.py:318-320 | Text before the first `<` is copied unchanged. |
| Markup.StripHtmlTagPrefix | src/mcp_server_monday/item.py:318-320 | A leading `<x>` with no `>` or newline inside `x` is removed as one match. |
| Markup.StripHtmlBrokenTagPrefix | src/mcp_server_monday/item.py:318-320 | A leading `<` whose every later `>` has a newline before it is kept, and stripping continues with the next character, so a tag further on is still removed. |
| Markup.StripHtmlNested | src/mcp_server_monday/item.py:318-320 | `<p>text<b>more</b></p>` keeps exactly `text` and `more`. |
| Markup.StripHtmlExample | src/mcp_server_monday/item.py:318-320 | `<p>Hello <b>World</b></p>` becomes `Hello World`. |
| Markup.StripHtmlKeepsBrokenTag | src/mcp_server_monday/item.py:319 | A `<` whose `>` only follows a newline is not a tag, and nothing is removed. |
| ItemUpdates.ResolveArgs | src/mcp_server_monday/item.py:283-288 | A truthy item id is used directly. Without one, a name lookup happens exactly when member name, board id and group id are all truthy. Otherwise the usage message is returned. |
| ItemUpdates.BuildUpdatesQuery | src/mcp_server_monday/item.py:291-303 | The query asks for body, creation time and creator. It asks for the attachment name and url if and only if attachments were requested. Item id and limit are passed through. |
| ItemUpdates.FormatUpdates | src/mcp_server_monday/item.py:309-336 | With no data, no item or no updates, the result is the "No updates found" message. Otherwise it is the item header followed by one block per update, in order, separated by blank lines. |
| ItemUpdates.PlainBody | src/mcp_server_monday/item.py:325 | The content of an update is the stripped body, or empty for an empty body. It has no tag and is no longer than the body. |
| ItemUpdates.UpdateBlock | src/mcp_server_monday/item.py:326-329 | A block starts with the time, the creator, the `Content: ` label and the stripped body, and is exactly that unless attachments were asked for and the update has some; BlockAttachmentLines gives the rest. |
| ItemUpdates.BlockAttachmentLines | src/mcp_server_monday/item.py:327-329 | With attachments asked for, `\nAttachments:\n` follows the stripped body directly, then one `- name: url` line per asset, in the service's order, separated by newlines, the last one ending the block. |
| ItemUpdates.UpdatesText | src/mcp_server_monday/item.py:309-336 | The "No updates found" message comes back exactly when there is no data, no item or no update. Otherwise the text starts with the item header. |
| ItemUpdates.GetItemUpdates | src/mcp_server_monday/item.py:270-337 | The usage case makes no call. A given id leads to one updates query. A name whose lookup fails makes only the lookup and returns the not-found message. A name that resolves makes the lookup, then the query for the found id. |
| ItemUpdates.BlockContentHasNoTag | src/mcp_server_monday/item.py:324-326 | Each block contains the line `\nContent: ` followed by the stripped body, and that stripped body has no tag. |
| ItemUpdates.AttachmentsOnlyWhenAsked | src/mcp_server_monday/item.py:327-329 | Asking for attachments changes the block exactly when the update has some. |
| CreateItem.PlanCreateItem | src/mcp_server_monday/item.py:155-178 | The request is refused with the both-or-neither message exactly when both or neither of group id and parent id are given. A group id creates an item in that group, read back under `create_item`. A parent id creates a sub-item, read back under `create_subitem`. |

## Left out

- The GraphQL text of each query is not modelled. Requests are modelled as structured values. Quoting, the `query_params` rule syntax and the layout of the query are not captured.
- ItemsPagination.FetchAllPages: requires that some answer stops the run. The source loops forever while the service keeps handing out truthy cursors.
- ItemsListing.ListItemsInGroups: requires that some answer stops the run, as FetchAllPages does.
- Exceptions raised by the client itself (network errors, at lines 62, 263 and 305) are not modelled.
- A `KeyError`/`IndexError` in `get_item_id_by_name` on a response without data is not modelled; the group's items are a parameter.
- The `TypeError` retry without `no_log` at lines 304-307 is not modelled, because both calls send the same query.
- A response whose `data` lacks `items`, or whose first item lacks `updates`, would raise in the source. The model has only "missing" and "items present".
- `column_ids=None` is taken as the empty list, as line 26 makes it.
- A null update body is modelled as the empty string; both give an empty content line (line 325).
- Every field the source reads is assumed present and non-null, with the type the model gives it. The source would instead fail or print `None` in these cases:
  - an item without `"id"` raises `KeyError` at line 73, outside any `try`, and one without `"name"` raises at line 79 or 100;
  - a column without `id` or `text` raises at line 84, and an asset without `name` or `url` at line 328;
  - an update whose `creator` is null raises `TypeError` at line 326;
  - a null column `text` or `created_at` is rendered as `None` (lines 84 and 326), which the model cannot express because those fields are strings.
- `str.strip()` and `str.lower()` are modelled on ASCII only. Unicode whitespace and non-ASCII case folding are not captured.
- The item URL built from `MONDAY_WORKSPACE_URL` after creation is not modelled. Neither are the success text and the error text for a response without the id.
- CreateItem.PlanCreateItem does not model the `columnValues` pass-through to the client call.
- The other handlers in `item.py` are not part of this model. Each forwards one client call and formats a single text:
  - list sub-items (line 141), update item (line 206) and get items by id (line 235) put the response through `json.dumps`; get items by id also turns an exception into "Error fetching Monday.com items: …";
  - create update (lines 216-221) answers "Created new update on Monday.com item: " and the update text;
  - move item to group (line 355) reads the moved item's id from `data.move_item_to_group.id`;
  - delete item (lines 370-371) and archive item (lines 384-385) answer "Deleted item …" and "Archived item …".
- `async`, the MCP `TextContent` wrapper and logging are not modelled. Each handler's single text is its result.
