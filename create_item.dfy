/**
 * The argument rule of `handle_monday_create_item`: exactly one of `groupId`
 * (a new item in that group) and `parentItemId` (a new sub-item under that
 * item) must be given; the key the created id is read back from follows the
 * branch taken.
 */
module CreateItem {
  import opened Common

  /** The client call the handler makes. */
  datatype CreateCall =
    | CreateInGroup(boardId: string, groupId: string, itemName: string)
    | CreateSubitem(parentItemId: string, itemName: string)

  /** Either a refusal with its message (and no call), or the call and the response key holding the new id. */
  datatype CreatePlan = Refused(message: string) | Issue(call: CreateCall, idKey: string)

  function BothOrNeitherMessage(): string
  {
    "You can set either groupId or parentItemId argument, but not both."
  }

  function PlanCreateItem(boardId: string, itemTitle: string, groupId: Option<string>,
                          parentItemId: Option<string>): (p: CreatePlan)
    ensures p.Refused? <==> groupId.Some? == parentItemId.Some?
    ensures p.Refused? ==> p.message == BothOrNeitherMessage()
    ensures p.Issue? && groupId.Some? ==>
              p.call == CreateInGroup(boardId, groupId.value, itemTitle) && p.idKey == "create_item"
    ensures p.Issue? && parentItemId.Some? ==>
              p.call == CreateSubitem(parentItemId.value, itemTitle) && p.idKey == "create_subitem"
  {
    var call :=
      if parentItemId.None? && groupId.Some? then Some(CreateInGroup(boardId, groupId.value, itemTitle))
      else if parentItemId.Some? && groupId.None? then Some(CreateSubitem(parentItemId.value, itemTitle))
      else None;
    match call
    case None => Refused(BothOrNeitherMessage())
    case Some(c) => Issue(c, if parentItemId.None? then "create_item" else "create_subitem")
  }
}
