/**
 * `handle_monday_get_item_updates`: choose the item (given id, or resolve it
 * by member name), ask for its updates (with attachment fields only when
 * asked to), and render each update as a text block.
 *
 * Both remote queries are oracles: `groupItems` is what the name lookup
 * returned, `response` what the updates query returned.
 */
module ItemUpdates {
  import opened Common
  import opened NameResolver
  import opened Markup

  datatype Asset = Asset(name: string, url: string)

  /** One update; `assets` is empty when the field is absent, `body` is "" when it is null. */
  datatype Update = Update(body: string, createdAt: string, creatorName: string, assets: seq<Asset>)

  /**
   * The updates query's answer: nothing usable (no response, or no "data"
   * key), or the `items` list, each entry holding that item's `updates`.
   */
  datatype UpdatesResponse = Missing | Data(items: seq<seq<Update>>)

  /** The fields an `updates { ... }` selection asks for. */
  datatype UpdateField = Body | CreatedAt | CreatorName | AssetName | AssetUrl

  datatype UpdatesQuery = UpdatesQuery(itemId: string, limit: int, fields: seq<UpdateField>)

  /** The remote calls the handler makes, in order. */
  datatype Call = LookupGroupItems(boardId: string, groupId: string) | FetchUpdates(query: UpdatesQuery)

  /** How the handler's arguments pick the item. */
  datatype Resolution = Direct(itemId: string) | ByName(boardId: string, groupId: string, memberName: string) | Usage

  function ResolveArgs(itemId: Option<string>, memberName: Option<string>, boardId: Option<string>,
                       groupId: Option<string>): (r: Resolution)
    ensures r.Direct? <==> Truthy(itemId)
    ensures r.Direct? ==> r.itemId == itemId.value
    ensures r.ByName? <==> !Truthy(itemId) && Truthy(memberName) && Truthy(boardId) && Truthy(groupId)
    ensures r.ByName? ==> r == ByName(boardId.value, groupId.value, memberName.value)
  {
    if !Truthy(itemId) && Truthy(memberName) && Truthy(boardId) && Truthy(groupId) then
      ByName(boardId.value, groupId.value, memberName.value)
    else if !Truthy(itemId) then Usage
    else Direct(itemId.value)
  }

  /** The updates query; attachment sub-fields only when `includeAssets`. */
  function BuildUpdatesQuery(itemId: string, limit: int, includeAssets: bool): (q: UpdatesQuery)
    ensures q.itemId == itemId && q.limit == limit
    ensures Body in q.fields && CreatedAt in q.fields && CreatorName in q.fields
    ensures AssetName in q.fields <==> includeAssets
    ensures AssetUrl in q.fields <==> includeAssets
  {
    UpdatesQuery(itemId, limit, [Body, CreatedAt, CreatorName] + (if includeAssets then [AssetName, AssetUrl] else []))
  }

  function UsageMessage(): string
  {
    "请提供 itemId 或 (member_name, board_id, group_id)。"
  }

  function NotFoundMessage(memberName: string): string
  {
    "未找到成员 " + memberName + " 的 itemId。"
  }

  function NoUpdatesMessage(itemId: string): string
  {
    "No updates found for item " + itemId + "."
  }

  function UpdatesHeader(itemId: string): string
  {
    "Item " + itemId + " 的更新内容：\n\n"
  }

  /** The response holds no update to show: no data, no item, or an item without updates. */
  predicate NoUpdates(response: UpdatesResponse)
  {
    response.Missing? || |response.items| == 0 || |response.items[0]| == 0
  }

  /** The body with its markup stripped; a null or empty body gives "". */
  function PlainBody(body: string): (r: string)
    ensures NoTag(r)
    ensures |r| <= |body|
  {
    if body == "" then ""
    else
      StripHtmlLeavesNoTag(body);
      StripHtmlShrinks(body);
      StripHtml(body)
  }

  function AssetLines(assets: seq<Asset>): (r: seq<string>)
    ensures |r| == |assets|
  {
    seq(|assets|, i requires 0 <= i < |assets| => "- " + assets[i].name + ": " + assets[i].url)
  }

  function AttachmentSection(u: Update, includeAssets: bool): string
  {
    if includeAssets && |u.assets| > 0 then "\nAttachments:\n" + Join("\n", AssetLines(u.assets)) else ""
  }

  /**
   * The text block for one update: the time, the creator and the stripped
   * body, and nothing more unless attachments were asked for and the update
   * has some.
   */
  function UpdateBlock(u: Update, includeAssets: bool): (r: string)
    ensures "Time: " + u.createdAt + "\n Creator: " + u.creatorName + "\nContent: " + PlainBody(u.body) <= r
    ensures r == "Time: " + u.createdAt + "\n Creator: " + u.creatorName + "\nContent: " + PlainBody(u.body)
            <==> !(includeAssets && |u.assets| > 0)
  {
    "Time: " + u.createdAt + "\n Creator: " + u.creatorName + "\nContent: " + PlainBody(u.body)
    + AttachmentSection(u, includeAssets)
  }

  function UpdateBlocks(updates: seq<Update>, includeAssets: bool): (r: seq<string>)
    ensures |r| == |updates|
  {
    seq(|updates|, i requires 0 <= i < |updates| => UpdateBlock(updates[i], includeAssets))
  }

  /** The text the handler returns once it knows the item id and has the updates response. */
  function UpdatesText(itemId: string, response: UpdatesResponse, includeAssets: bool): (r: string)
    ensures r == NoUpdatesMessage(itemId) <==> NoUpdates(response)
    ensures !NoUpdates(response) ==> UpdatesHeader(itemId) <= r
  {
    if NoUpdates(response) then NoUpdatesMessage(itemId)
    else UpdatesHeader(itemId) + Join("\n\n", UpdateBlocks(response.items[0], includeAssets))
  }

  /** The "no updates" check and the loop that builds `formatted_updates`. */
  method FormatUpdates(itemId: string, response: UpdatesResponse, includeAssets: bool) returns (text: string)
    ensures NoUpdates(response) ==> text == NoUpdatesMessage(itemId)
    ensures !NoUpdates(response) ==>
              text == UpdatesHeader(itemId) + Join("\n\n", UpdateBlocks(response.items[0], includeAssets))
  {
    if NoUpdates(response) {
      return NoUpdatesMessage(itemId);
    }
    var updates := response.items[0];
    var formatted: seq<string> := [];
    for i := 0 to |updates|
      invariant formatted == UpdateBlocks(updates[..i], includeAssets)
    {
      var u := updates[i];
      var plainBody := if u.body != "" then StripHtml(u.body) else "";
      assert plainBody == PlainBody(u.body);
      var updateText := "Time: " + u.createdAt + "\n Creator: " + u.creatorName + "\nContent: " + plainBody;
      ghost var head := updateText;
      if includeAssets && |u.assets| > 0 {
        updateText := updateText + "\nAttachments:\n" + Join("\n", AssetLines(u.assets));
      }
      assert updateText == head + AttachmentSection(u, includeAssets);
      assert updateText == UpdateBlock(u, includeAssets);
      assert updates[..i + 1] == updates[..i] + [u];
      assert UpdateBlocks(updates[..i + 1], includeAssets) == UpdateBlocks(updates[..i], includeAssets) + [updateText];
      formatted := formatted + [updateText];
    }
    assert updates[..|updates|] == updates;
    text := UpdatesHeader(itemId) + Join("\n\n", formatted);
  }

  /** The whole handler, with the calls it makes to the service. */
  method GetItemUpdates(itemId: Option<string>, limit: int, includeAssets: bool, memberName: Option<string>,
                        boardId: Option<string>, groupId: Option<string>,
                        groupItems: seq<GroupItem>, response: UpdatesResponse)
    returns (text: string, calls: seq<Call>)
    ensures ResolveArgs(itemId, memberName, boardId, groupId).Usage? ==> calls == [] && text == UsageMessage()
    ensures ResolveArgs(itemId, memberName, boardId, groupId).Direct? ==>
              calls == [FetchUpdates(BuildUpdatesQuery(itemId.value, limit, includeAssets))]
              && text == UpdatesText(itemId.value, response, includeAssets)
    ensures ResolveArgs(itemId, memberName, boardId, groupId).ByName? ==>
              var found := FirstMatch(groupItems, memberName.value);
              if Truthy(found) then
                calls == [LookupGroupItems(boardId.value, groupId.value),
                          FetchUpdates(BuildUpdatesQuery(found.value, limit, includeAssets))]
                && text == UpdatesText(found.value, response, includeAssets)
              else
                calls == [LookupGroupItems(boardId.value, groupId.value)] && text == NotFoundMessage(memberName.value)
  {
    calls := [];
    var id: string;
    match ResolveArgs(itemId, memberName, boardId, groupId) {
      case Usage =>
        return UsageMessage(), [];
      case ByName(board, group, member) =>
        calls := [LookupGroupItems(board, group)];
        var found := GetItemIdByName(groupItems, member);
        if !Truthy(found) {
          return NotFoundMessage(member), calls;
        }
        id := found.value;
      case Direct(given) =>
        id := given;
    }
    calls := calls + [FetchUpdates(BuildUpdatesQuery(id, limit, includeAssets))];
    text := FormatUpdates(id, response, includeAssets);
  }

  /**
   * Every block carries the content line: `"\nContent: "` followed by the body
   * with its markup stripped, which contains no tag.
   */
  lemma BlockContentHasNoTag(u: Update, includeAssets: bool)
    ensures var block, line := UpdateBlock(u, includeAssets), "\nContent: " + PlainBody(u.body);
            exists k :: OccursAt(line, block, k)
    ensures NoTag(PlainBody(u.body))
  {
    var block, line := UpdateBlock(u, includeAssets), "\nContent: " + PlainBody(u.body);
    var head := "Time: " + u.createdAt + "\n Creator: " + u.creatorName;
    assert block == head + line + AttachmentSection(u, includeAssets);
    assert block[|head|..|head| + |line|] == line;
    assert OccursAt(line, block, |head|);
  }

  /**
   * With attachments asked for, a block ends with `"\nAttachments:\n"` and
   * then one `- name: url` line per asset, in the order the service returned
   * them, separated by newlines, the last one ending the block.
   */
  lemma {:induction false} BlockAttachmentLines(u: Update, i: nat)
    requires i < |u.assets|
    ensures var block, asset := UpdateBlock(u, true), u.assets[i];
            var head := "Time: " + u.createdAt + "\n Creator: " + u.creatorName + "\nContent: " + PlainBody(u.body);
            var line := "- " + asset.name + ": " + asset.url;
            var k := |head + "\nAttachments:\n"| + JoinOffset("\n", AssetLines(u.assets), i);
            && OccursAt("\nAttachments:\n", block, |head|)
            && OccursAt(line, block, k)
            && (i + 1 < |u.assets| ==>
                  OccursAt("\n", block, k + |line|)
                  && |head + "\nAttachments:\n"| + JoinOffset("\n", AssetLines(u.assets), i + 1) == k + |line| + 1)
            && (i + 1 == |u.assets| ==> k + |line| == |block|)
  {
    var head := "Time: " + u.createdAt + "\n Creator: " + u.creatorName + "\nContent: " + PlainBody(u.body);
    var lines := AssetLines(u.assets);
    var joined := Join("\n", lines);
    var intro := "\nAttachments:\n";
    BlockWithAttachments(u);
    assert OccursAt(intro, intro, 0);
    OccursInside(intro, head, intro, joined, 0);
    assert lines[i] == "- " + u.assets[i].name + ": " + u.assets[i].url;
    JoinLayoutAfter(head + intro, "\n", lines, i);
  }

  lemma BlockWithAttachments(u: Update)
    requires |u.assets| > 0
    ensures UpdateBlock(u, true)
            == "Time: " + u.createdAt + "\n Creator: " + u.creatorName + "\nContent: " + PlainBody(u.body)
               + "\nAttachments:\n" + Join("\n", AssetLines(u.assets))
  {
  }

  /**
   * Asking for attachments changes a block exactly when the update has some:
   * the block differs from the one rendered without attachments just when
   * attachments were asked for and there are any.
   */
  lemma AttachmentsOnlyWhenAsked(u: Update, includeAssets: bool)
    ensures UpdateBlock(u, includeAssets) != UpdateBlock(u, false) <==> includeAssets && |u.assets| > 0
  {
  }
}
