// The tag page's rendering decisions (`UIRenderer`) and the tag form's
// state (`ModalManager`). Markup is reduced to what it shows: an empty
// state, or a list of sections, each of cards with their action buttons.
module TagUi {
  import opened Wrappers
  import opened Strings
  import Config = TagsConfig

  /** A tag as the tag API lists it, with the caller's permissions on it. */
  datatype TagView = TagView(id: nat, name: string, color: string, isDefault: bool,
                             canEdit: bool, canDelete: bool)

  /** `tags.filter(tag => !tag.is_default)`. */
  function UserTags(tags: seq<TagView>): (r: seq<TagView>)
    ensures |r| <= |tags|
    ensures forall t :: t in r <==> t in tags && !t.isDefault
  {
    if tags == [] then []
    else
      assert tags == [tags[0]] + tags[1..];
      (if tags[0].isDefault then [] else [tags[0]]) + UserTags(tags[1..])
  }

  /** `tags.filter(tag => tag.is_default)`. */
  function DefaultTags(tags: seq<TagView>): (r: seq<TagView>)
    ensures |r| <= |tags|
    ensures forall t :: t in r <==> t in tags && t.isDefault
  {
    if tags == [] then []
    else
      assert tags == [tags[0]] + tags[1..];
      (if tags[0].isDefault then [tags[0]] else []) + DefaultTags(tags[1..])
  }

  /** The two filters split the list: every tag lands in exactly one, as often as it occurs. */
  lemma {:induction false} FiltersPartition(tags: seq<TagView>)
    ensures multiset(UserTags(tags)) + multiset(DefaultTags(tags)) == multiset(tags)
    ensures |UserTags(tags)| + |DefaultTags(tags)| == |tags|
  {
    if tags != [] {
      FiltersPartition(tags[1..]);
      assert tags == [tags[0]] + tags[1..];
    }
  }

  /** _shouldShowEmptyState. */
  predicate ShouldShowEmptyState(userTags: seq<TagView>, defaultTags: seq<TagView>, isSuperuser: bool) {
    |userTags| == 0 && (!isSuperuser || |defaultTags| == 0)
  }

  /** A rendered section: the default-tag section or the personal one, with its cards. */
  datatype Section = Section(isDefault: bool, marginTop: bool, tags: seq<TagView>)

  /**
   * _renderTagSections: the default section only for a superuser with
   * default tags, then the personal section when there are user tags,
   * spaced from a default section above it.
   */
  function RenderTagSections(userTags: seq<TagView>, defaultTags: seq<TagView>, isSuperuser: bool): (r: seq<Section>)
    ensures |r| <= 2
    ensures isSuperuser && |defaultTags| > 0 <==> |r| > 0 && r[0].isDefault
    ensures forall i :: 0 <= i < |r| && r[i].isDefault ==> i == 0 && r[i].tags == defaultTags && !r[i].marginTop
    ensures |userTags| > 0 <==> |r| > 0 && !r[|r| - 1].isDefault
    ensures forall i :: 0 <= i < |r| && !r[i].isDefault ==>
              i == |r| - 1 && r[i].tags == userTags && (r[i].marginTop <==> i > 0)
  {
    var showDefault := isSuperuser && |defaultTags| > 0;
    (if showDefault then [Section(true, false, defaultTags)] else []) +
    (if |userTags| > 0 then [Section(false, showDefault, userTags)] else [])
  }

  /** What `renderTags` leaves in the list: the empty state or the sections. */
  datatype Rendered = EmptyState | Sections(sections: seq<Section>)

  function RenderTags(tags: seq<TagView>, isSuperuser: bool): (r: Rendered)
    ensures r.EmptyState? <==> ShouldShowEmptyState(UserTags(tags), DefaultTags(tags), isSuperuser)
    ensures r.Sections? ==> r.sections == RenderTagSections(UserTags(tags), DefaultTags(tags), isSuperuser)
  {
    var userTags := UserTags(tags);
    var defaultTags := DefaultTags(tags);
    if ShouldShowEmptyState(userTags, defaultTags, isSuperuser) then EmptyState
    else Sections(RenderTagSections(userTags, defaultTags, isSuperuser))
  }

  /** The empty state is shown exactly when there would be no section to show. */
  lemma EmptyStateIffNoSections(tags: seq<TagView>, isSuperuser: bool)
    ensures RenderTags(tags, isSuperuser).EmptyState? <==>
            RenderTagSections(UserTags(tags), DefaultTags(tags), isSuperuser) == []
  {
  }

  /** A non-superuser never sees a default tag's card, however many there are. */
  lemma OrdinaryUserSeesOnlyOwnTags(tags: seq<TagView>)
    ensures RenderTags(tags, false).Sections? ==>
              forall s, t :: s in RenderTags(tags, false).sections && t in s.tags ==> !t.isDefault
  {
  }

  /** A card's action buttons. */
  datatype Action = Edit(id: nat, name: string, color: string, isDefault: bool) | Delete(id: nat, name: string)

  /** _renderTagActions: edit when `can_edit`, then delete when `can_delete`; '' for none. */
  function RenderTagActions(tag: TagView): (r: seq<Action>)
    ensures tag.canEdit <==> |r| > 0 && r[0].Edit?
    ensures tag.canDelete <==> |r| > 0 && r[|r| - 1].Delete?
    ensures r == [] <==> !tag.canEdit && !tag.canDelete
    ensures forall i :: 0 <= i < |r| && r[i].Edit? ==>
              i == 0 && r[i] == Edit(tag.id, tag.name, tag.color, tag.isDefault)
    ensures forall i :: 0 <= i < |r| && r[i].Delete? ==> i == |r| - 1 && r[i] == Delete(tag.id, tag.name)
  {
    (if tag.canEdit then [Edit(tag.id, tag.name, tag.color, tag.isDefault)] else []) +
    (if tag.canDelete then [Delete(tag.id, tag.name)] else [])
  }

  // ---------------------------------------------------------------------
  // ModalManager

  /** `getFormData()`. */
  datatype FormData = FormData(name: string, color: string, isDefault: bool)

  const CreateTitle := "새 태그 생성"
  const EditTitle := "태그 수정"

  /**
   * `parseInt(s, 10)` of a string of decimal digits, None (NaN) for an
   * empty one.
   */
  function ParseDigits(s: string): (r: Option<int>)
    requires AllDigits(s)
    ensures r.Some? <==> s != ""
    ensures r.Some? ==> r.value == DigitsValue(s)
  {
    if s == "" then None else Some(DigitsValue(s))
  }

  /**
   * The tag dialog: its title, the name, colour and default-checkbox
   * inputs, `dataset.tagId` of the modal element, whether the dialog and
   * the default-tag option are shown.
   */
  class ModalManager {
    const isSuperuser: bool
    var title: string
    var nameInput: string
    var colorInput: string
    var isDefaultChecked: bool
    var tagId: Option<string>
    var shown: bool
    var defaultOptionShown: bool

    /** Every stored id is a rendered number. */
    predicate Valid()
      reads this`tagId
    {
      tagId.Some? ==> AllDigits(tagId.value)
    }

    constructor(isSuperuser: bool)
      ensures this.isSuperuser == isSuperuser && Valid()
      ensures tagId.None? && !shown && nameInput == "" && !isDefaultChecked
    {
      this.isSuperuser := isSuperuser;
      title := "";
      nameInput := "";
      colorInput := Config.DefaultTagColor;
      isDefaultChecked := false;
      tagId := None;
      shown := false;
      defaultOptionShown := false;
    }

    /** getCurrentTagId: the stored id when one is set and non-empty, else null. */
    function CurrentTagId(): (r: Option<int>)
      requires Valid()
      reads this
      ensures r.Some? <==> tagId.Some? && tagId.value != ""
      ensures r.Some? ==> r.value == DigitsValue(tagId.value)
    {
      if tagId.Some? && tagId.value != "" then ParseDigits(tagId.value) else None
    }

    /** getFormData: the trimmed name, the colour or the default one, and the checkbox only for a superuser. */
    function GetFormData(): (r: FormData)
      reads this
      ensures r.name == Trim(nameInput)
      ensures r.color == (if colorInput == "" then Config.DefaultTagColor else colorInput) && r.color != ""
      ensures r.isDefault <==> isSuperuser && isDefaultChecked
    {
      FormData(Trim(nameInput), if colorInput == "" then Config.DefaultTagColor else colorInput,
               if isSuperuser then isDefaultChecked else false)
    }

    /** openCreateModal: a reset form with the default colour, no stored id, shown. */
    method OpenCreateModal()
      requires Valid()
      modifies this
      ensures Valid() && CurrentTagId().None? && tagId.None?
      ensures title == CreateTitle && nameInput == "" && colorInput == Config.DefaultTagColor
      ensures !isDefaultChecked && shown && defaultOptionShown == isSuperuser
      ensures GetFormData() == FormData("", Config.DefaultTagColor, false)
    {
      nameInput := "";
      colorInput := Config.DefaultTagColor;
      isDefaultChecked := false;
      tagId := None;
      title := CreateTitle;
      defaultOptionShown := isSuperuser;
      shown := true;
    }

    /** openEditModal: the tag's fields in the form and its id stored on the dialog. */
    method OpenEditModal(id: nat, name: string, color: string, isDefault: bool)
      requires Valid()
      modifies this
      ensures Valid() && CurrentTagId() == Some(id)
      ensures title == EditTitle && nameInput == name && colorInput == color && shown
      ensures isDefaultChecked == (if isSuperuser then isDefault else old(isDefaultChecked))
      ensures defaultOptionShown == isSuperuser
    {
      title := EditTitle;
      nameInput := name;
      colorInput := color;
      if isSuperuser {
        isDefaultChecked := isDefault;
      }
      defaultOptionShown := isSuperuser;
      shown := true;
      tagId := Some(NatToString(id));
      NatToStringRoundTrip(id);
    }

    /** close: hides the dialog and nothing else. */
    method Close()
      modifies this`shown
      ensures !shown
    {
      shown := false;
    }
  }

  /** The form of a non-superuser never asks for a default tag. */
  lemma OrdinaryFormIsNeverDefault(m: ModalManager)
    requires !m.isSuperuser
    ensures !m.GetFormData().isDefault
  {
  }
}
