/** The Task Constructor's state and the reducers its top-level component
    applies to it: block editing, the global format, template drops, and the
    registry of custom block types with their tooltips. */
module TaskConstructor {
  import opened Results
  import opened Text
  import opened Sequences
  import opened TaskBlocks

  datatype State = State(
    blocks: seq<Block>,
    formatType: FormatType,
    customBlockTypes: seq<string>,
    customBlockTooltips: map<string, string>)

  /** The state the component starts in. */
  const Initial: State := State([], Hashtag, [], map[])

  /** `customBlockTooltips[type]`: the recorded tooltip, or `undefined`. */
  function TooltipFor(s: State, blockType: string): (r: Option<string>)
    ensures r.Some? <==> blockType in s.customBlockTooltips
    ensures r.Some? ==> r.value == s.customBlockTooltips[blockType]
  {
    if blockType in s.customBlockTooltips then Some(s.customBlockTooltips[blockType]) else None
  }

  /** `handleAddBlock`: appends one new block of the given type carrying the
      tooltip recorded for that type; `id` stands for `crypto.randomUUID()`. */
  function AddBlock(s: State, blockType: string, id: string): (r: State)
    ensures |r.blocks| == |s.blocks| + 1 && r.blocks[..|s.blocks|] == s.blocks
    ensures var b := r.blocks[|s.blocks|];
            b.id == id && b.blockType == blockType && b.content == ""
            && b.isCollapsed == Some(false) && b.formatType == None
            && b.tooltip == TooltipFor(s, blockType)
    ensures r.(blocks := s.blocks) == s
  {
    s.(blocks := s.blocks + [CreateBlock(id, blockType, TooltipFor(s, blockType))])
  }

  /** Applies `edit` to every block whose id is `id`, in place. */
  function EditWhere(blocks: seq<Block>, id: string, edit: Block -> Block): (r: seq<Block>)
    ensures |r| == |blocks|
    ensures forall i :: 0 <= i < |r| && blocks[i].id == id ==> r[i] == edit(blocks[i])
    ensures forall i :: 0 <= i < |r| && blocks[i].id != id ==> r[i] == blocks[i]
  {
    seq(|blocks|, i requires 0 <= i < |blocks| => if blocks[i].id == id then edit(blocks[i]) else blocks[i])
  }

  /** `handleUpdateBlock`: the matching blocks get the new content; nothing
      else changes, in them or elsewhere. */
  function UpdateBlock(s: State, id: string, content: string): (r: State)
    ensures r.(blocks := s.blocks) == s && |r.blocks| == |s.blocks|
    ensures forall i :: 0 <= i < |r.blocks| ==> r.blocks[i].(content := s.blocks[i].content) == s.blocks[i]
    ensures forall i :: 0 <= i < |r.blocks| && s.blocks[i].id == id ==> r.blocks[i].content == content
    ensures forall i :: 0 <= i < |r.blocks| && s.blocks[i].id != id ==> r.blocks[i] == s.blocks[i]
  {
    s.(blocks := EditWhere(s.blocks, id, (b: Block) => b.(content := content)))
  }

  /** `handleUpdateBlockTooltip`: the matching blocks get the new tooltip. */
  function UpdateBlockTooltip(s: State, id: string, tooltip: string): (r: State)
    ensures r.(blocks := s.blocks) == s && |r.blocks| == |s.blocks|
    ensures forall i :: 0 <= i < |r.blocks| ==> r.blocks[i].(tooltip := s.blocks[i].tooltip) == s.blocks[i]
    ensures forall i :: 0 <= i < |r.blocks| && s.blocks[i].id == id ==> r.blocks[i].tooltip == Some(tooltip)
    ensures forall i :: 0 <= i < |r.blocks| && s.blocks[i].id != id ==> r.blocks[i] == s.blocks[i]
  {
    s.(blocks := EditWhere(s.blocks, id, (b: Block) => b.(tooltip := Some(tooltip))))
  }

  /** `handleBlockFormatTypeChange`: the matching blocks get the new format,
      or go back to the global one when given `undefined`. */
  function SetBlockFormat(s: State, id: string, f: Option<FormatType>): (r: State)
    ensures r.(blocks := s.blocks) == s && |r.blocks| == |s.blocks|
    ensures forall i :: 0 <= i < |r.blocks| ==> r.blocks[i].(formatType := s.blocks[i].formatType) == s.blocks[i]
    ensures forall i :: 0 <= i < |r.blocks| && s.blocks[i].id == id ==> r.blocks[i].formatType == f
    ensures forall i :: 0 <= i < |r.blocks| && s.blocks[i].id != id ==> r.blocks[i] == s.blocks[i]
  {
    s.(blocks := EditWhere(s.blocks, id, (b: Block) => b.(formatType := f)))
  }

  /** `!block.isCollapsed`, where an unset flag reads as false. */
  function Flipped(c: Option<bool>): (r: bool)
    ensures c.Some? ==> r == !c.value
    ensures c.None? ==> r
  {
    match c
    case Some(v) => !v
    case None => true
  }

  /** `handleToggleCollapse`: the matching blocks' flag is negated. */
  function ToggleCollapse(s: State, id: string): (r: State)
    ensures r.(blocks := s.blocks) == s && |r.blocks| == |s.blocks|
    ensures forall i :: 0 <= i < |r.blocks| ==> r.blocks[i].(isCollapsed := s.blocks[i].isCollapsed) == s.blocks[i]
    ensures forall i :: 0 <= i < |r.blocks| && s.blocks[i].id == id ==>
              r.blocks[i].isCollapsed == Some(!(s.blocks[i].isCollapsed == Some(true)))
    ensures forall i :: 0 <= i < |r.blocks| && s.blocks[i].id != id ==> r.blocks[i] == s.blocks[i]
  {
    s.(blocks := EditWhere(s.blocks, id, (b: Block) => b.(isCollapsed := Some(Flipped(b.isCollapsed)))))
  }

  /** Collapsing twice restores every block whose flag was set; a block
      whose flag was unset ends up with it set to false. */
  lemma ToggleCollapseTwice(s: State, id: string)
    ensures var r := ToggleCollapse(ToggleCollapse(s, id), id);
            && r.(blocks := s.blocks) == s && |r.blocks| == |s.blocks|
            && forall i :: 0 <= i < |s.blocks| ==>
                 r.blocks[i] == if s.blocks[i].id == id && s.blocks[i].isCollapsed == None
                                then s.blocks[i].(isCollapsed := Some(false)) else s.blocks[i]
  {
    var t := ToggleCollapse(s, id);
    var r := ToggleCollapse(t, id);
    forall i | 0 <= i < |s.blocks|
      ensures r.blocks[i] == if s.blocks[i].id == id && s.blocks[i].isCollapsed == None
                             then s.blocks[i].(isCollapsed := Some(false)) else s.blocks[i]
    {
      assert t.blocks[i].id == s.blocks[i].id;
    }
  }

  /** `handleDeleteBlock`: removes exactly the blocks with that id and keeps
      the rest in order. */
  function DeleteBlock(s: State, id: string): (r: State)
    ensures r.(blocks := s.blocks) == s
    ensures forall i :: 0 <= i < |r.blocks| ==> r.blocks[i].id != id
    ensures forall b :: multiset(r.blocks)[b] == if b.id == id then 0 else multiset(s.blocks)[b]
    ensures IsSubsequence(r.blocks, s.blocks)
  {
    var keep := (b: Block) => b.id != id;
    FilterMultiset(s.blocks, keep);
    FilterIsSubsequence(s.blocks, keep);
    s.(blocks := Filter(s.blocks, keep))
  }

  /** `handleFormatTypeChange`: sets the global format only. */
  function SetFormatType(s: State, f: FormatType): (r: State)
    ensures r.formatType == f && r.(formatType := s.formatType) == s
  {
    s.(formatType := f)
  }

  /** The template branch of `handleDragEnd`: dropping a sidebar template
      somewhere adds a block of its type; any other drag end leaves the
      state alone. */
  function DropTemplate(s: State, isTemplate: bool, templateType: string, overPresent: bool, id: string): (r: State)
    ensures isTemplate && overPresent ==> r == AddBlock(s, templateType, id)
    ensures !(isTemplate && overPresent) ==> r == s
    ensures |r.blocks| == |s.blocks| + (if isTemplate && overPresent then 1 else 0)
  {
    if isTemplate && overPresent then AddBlock(s, templateType, id) else s
  }

  // ---------------------------------------------------------------------
  // Custom block types

  /** Every block type the sidebar offers: the built-in ones, then the
      custom ones. */
  function AllBlockTypes(s: State): seq<string> {
    BlockTypes + s.customBlockTypes
  }

  /** `handleAddCustomBlockType`: a blank name or a name already offered
      leaves the state alone (the source only shows a notification);
      otherwise the name is appended and its tooltip recorded. */
  function AddCustomBlockType(s: State, blockType: string, tooltip: string): (r: State)
    ensures IsBlank(blockType) || blockType in AllBlockTypes(s) ==> r == s
    ensures !IsBlank(blockType) && blockType !in AllBlockTypes(s) ==>
              && r.customBlockTypes == s.customBlockTypes + [blockType]
              && r.customBlockTooltips == s.customBlockTooltips[blockType := tooltip]
              && r.blocks == s.blocks && r.formatType == s.formatType
  {
    TrimEmptyIffBlank(blockType);
    if Trim(blockType) == "" then s
    else if blockType in BlockTypes + s.customBlockTypes then s
    else s.(customBlockTypes := s.customBlockTypes + [blockType],
            customBlockTooltips := s.customBlockTooltips[blockType := tooltip])
  }

  /** `handleRemoveCustomBlockType`: the name leaves both the list (every
      occurrence) and the tooltip map; the blocks are untouched, including
      blocks of the removed type. */
  function RemoveCustomBlockType(s: State, blockType: string): (r: State)
    ensures blockType !in r.customBlockTypes && blockType !in r.customBlockTooltips
    ensures forall t :: t != blockType ==> (t in r.customBlockTypes <==> t in s.customBlockTypes)
    ensures IsSubsequence(r.customBlockTypes, s.customBlockTypes)
    ensures forall t :: multiset(r.customBlockTypes)[t] == if t == blockType then 0 else multiset(s.customBlockTypes)[t]
    ensures r.customBlockTooltips == map t | t in s.customBlockTooltips && t != blockType :: s.customBlockTooltips[t]
    ensures r.blocks == s.blocks && r.formatType == s.formatType
  {
    var keep := t => t != blockType;
    FilterContains(s.customBlockTypes, keep);
    FilterIsSubsequence(s.customBlockTypes, keep);
    FilterMultiset(s.customBlockTypes, keep);
    s.(customBlockTypes := Filter(s.customBlockTypes, keep),
       customBlockTooltips := s.customBlockTooltips - {blockType})
  }

  /** What the reducers keep true of the registry: custom names are
      non-blank, pairwise distinct, distinct from the built-in names, and
      exactly the keys of the tooltip map. */
  ghost predicate RegistryOk(s: State) {
    && (forall i :: 0 <= i < |s.customBlockTypes| ==> !IsBlank(s.customBlockTypes[i]))
    && Distinct(s.customBlockTypes)
    && (forall i :: 0 <= i < |s.customBlockTypes| ==> s.customBlockTypes[i] !in BlockTypes)
    && (forall t :: t in s.customBlockTooltips <==> t in s.customBlockTypes)
  }

  lemma InitialRegistryOk()
    ensures RegistryOk(Initial)
  {
  }

  lemma AddCustomKeepsRegistry(s: State, blockType: string, tooltip: string)
    requires RegistryOk(s)
    ensures RegistryOk(AddCustomBlockType(s, blockType, tooltip))
  {
    var r := AddCustomBlockType(s, blockType, tooltip);
    if r != s {
      assert blockType !in s.customBlockTypes && blockType !in BlockTypes by {
        assert forall t :: t in s.customBlockTypes ==> t in AllBlockTypes(s);
        assert forall t :: t in BlockTypes ==> t in AllBlockTypes(s);
      }
    }
  }

  lemma RemoveCustomKeepsRegistry(s: State, blockType: string)
    requires RegistryOk(s)
    ensures RegistryOk(RemoveCustomBlockType(s, blockType))
  {
    var keep := t => t != blockType;
    var r := RemoveCustomBlockType(s, blockType);
    assert r.customBlockTypes == Filter(s.customBlockTypes, keep);
    FilterDistinct(s.customBlockTypes, keep);
    FilterContains(s.customBlockTypes, keep);
    forall i | 0 <= i < |r.customBlockTypes|
      ensures !IsBlank(r.customBlockTypes[i]) && r.customBlockTypes[i] !in BlockTypes
    {
      assert r.customBlockTypes[i] in s.customBlockTypes;
      var k :| 0 <= k < |s.customBlockTypes| && s.customBlockTypes[k] == r.customBlockTypes[i];
    }
    forall t ensures t in r.customBlockTooltips <==> t in r.customBlockTypes {
      assert t in r.customBlockTooltips <==> t in s.customBlockTooltips && t != blockType;
    }
  }

  /** The block reducers never touch the registry. */
  lemma BlockEditsKeepRegistry(s: State, id: string, text: string, f: Option<FormatType>, g: FormatType, t: string)
    requires RegistryOk(s)
    ensures RegistryOk(AddBlock(s, t, id)) && RegistryOk(UpdateBlock(s, id, text))
    ensures RegistryOk(UpdateBlockTooltip(s, id, text)) && RegistryOk(SetBlockFormat(s, id, f))
    ensures RegistryOk(ToggleCollapse(s, id)) && RegistryOk(DeleteBlock(s, id)) && RegistryOk(SetFormatType(s, g))
  {
  }

  /** A block added from a built-in template gets no tooltip while the
      registry is well formed, since only custom names have one. */
  lemma BuiltInBlocksHaveNoTooltip(s: State, t: string, id: string)
    requires RegistryOk(s) && t in BlockTypes
    ensures AddBlock(s, t, id).blocks[|s.blocks|].tooltip == None
  {
  }
}
