/** The "Tags" accordion of the secondary bar: one item per tag, and the search
    a click on a tag starts (src/legacy/hooks/use-get-tags-accordions.tsx). */
module TagsAccordions {
  import opened Wrappers

  /** A tag as the store holds it; `color` may be absent. */
  datatype Tag = Tag(id: string, name: string, color: Option<int>)

  /** `v.color || 0`: the tag's colour index, or 0 when it is absent or 0. */
  function ColorIndex(color: Option<int>): (c: int)
    ensures color.None? ==> c == 0
    ensures color.Some? ==> c == color.value
  {
    if color.Some? && color.value != 0 then color.value else 0
  }

  /** One accordion item. `labelText` is the item's `label` (a Dafny keyword). */
  datatype ItemType = ItemType(
    id: string,
    item: Tag,
    active: bool,
    color: int,
    divider: bool,
    labelText: string,
    name: string,
    open: bool)

  /** The item the builder makes for `tag`. */
  predicate IsItemFor(item: ItemType, tag: Tag)
  {
    && item.id == tag.id
    && item.item == tag
    && item.labelText == tag.name
    && item.name == tag.name
    && item.color == ColorIndex(tag.color)
    && !item.active && !item.open && !item.divider
  }

  /** The `reduce` over the store: pushes one item per tag onto the accumulator, in
      iteration order. */
  method BuildItems(tags: seq<Tag>) returns (items: seq<ItemType>)
    ensures |items| == |tags|
    ensures forall i :: 0 <= i < |tags| ==> IsItemFor(items[i], tags[i])
  {
    items := [];
    for k := 0 to |tags|
      invariant |items| == k
      invariant forall i :: 0 <= i < k ==> IsItemFor(items[i], tags[i])
    {
      var v := tags[k];
      var item := ItemType(v.id, v, false, ColorIndex(v.color), false, v.name, v.name, false);
      items := items + [item];
    }
  }

  /** The accordion root. `labelText` is the translated 'label.tags'. */
  datatype TagsAccordion = TagsAccordion(
    id: string,
    labelText: string,
    active: bool,
    open: bool,
    items: seq<ItemType>)

  /** `useGetTagsAccordion`: the root with id 'Tags', closed and inactive, holding
      the built items. */
  method GetTagsAccordion(tags: seq<Tag>, tagsLabel: string) returns (accordion: TagsAccordion)
    ensures accordion.id == "Tags"
    ensures accordion.labelText == tagsLabel
    ensures !accordion.active && !accordion.open
    ensures |accordion.items| == |tags|
    ensures forall i :: 0 <= i < |tags| ==> IsItemFor(accordion.items[i], tags[i])
  {
    var items := BuildItems(tags);
    accordion := TagsAccordion("Tags", tagsLabel, false, false, items);
  }

  /** The query chip a click on a tag puts into the search. */
  datatype QueryChip = QueryChip(
    id: string,
    avatarColor: int,
    avatarIcon: string,
    background: string,
    hasAvatar: bool,
    isGeneric: bool,
    isQueryFilter: bool,
    labelText: string,
    value: string)

  /** `runSearch(chips, app)`. */
  datatype RunSearch = RunSearch(chips: seq<QueryChip>, app: string)

  /** `triggerSearch`: one query-filter chip for the tag, searched in 'contacts'.
      `chipId` stands for the `nanoid()` value. */
  function TriggerSearch(tag: Tag, chipId: string): (call: RunSearch)
    ensures call.app == "contacts" && |call.chips| == 1
    ensures call.chips[0].id == chipId
    ensures call.chips[0].labelText == "tag:" + tag.name
    ensures call.chips[0].value == "tag:\"" + tag.name + "\""
    ensures call.chips[0].avatarColor == ColorIndex(tag.color)
    ensures call.chips[0].isQueryFilter && call.chips[0].hasAvatar && !call.chips[0].isGeneric
  {
    RunSearch(
      [QueryChip(chipId, ColorIndex(tag.color), "Tag", "gray2", true, false, true,
                 "tag:" + tag.name, "tag:\"" + tag.name + "\"")],
      "contacts")
  }

  /** Reads the tag name back out of a chip value of the form tag:"name". Nothing in
      the component reads chip values; this is the inverse that ChipValueRoundTrip is
      stated with. The component does not escape quotes, so for a name such as a"b the
      value is tag:"a"b", and reading back still strips only the outer tag:" and ". */
  function TagNameOfValue(value: string): (name: Option<string>)
    ensures name.Some? ==> value == "tag:\"" + name.value + "\""
  {
    if |value| >= 6 && value[..5] == "tag:\"" && value[|value| - 1] == '"'
    then
      assert value == value[..5] + value[5..|value| - 1] + [value[|value| - 1]];
      Some(value[5..|value| - 1])
    else None
  }

  /** The chip value names the tag: reading it back gives the tag's name. */
  lemma ChipValueRoundTrip(tag: Tag, chipId: string)
    ensures TagNameOfValue(TriggerSearch(tag, chipId).chips[0].value) == Some(tag.name)
  {
    var v := TriggerSearch(tag, chipId).chips[0].value;
    assert v[..5] == "tag:\"";
    assert v[5..|v| - 1] == tag.name;
  }
}
