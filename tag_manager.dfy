// The tag page's controller (`TagManager`): loading the tag list with its
// in-flight guard, saving the dialog's tag, deleting a tag after a
// confirmation, and the lookups over the loaded list.
//
// Every awaited call is one step: its outcome is a parameter (the
// answer of the API call, the answer of the reload that follows a
// success, the user's reply to the confirmation dialog).
module TagManager {
  import opened Wrappers
  import opened Strings
  import opened Http
  import Config = TagsConfig
  import opened TagUi
  import TagUtils

  /** What the page shows in the tag list. */
  datatype View = Blank | Loading | Rendered(r: Rendered) | LoadError(message: string)

  /** The message box raised by `MessageManager`, if any. */
  datatype Notice = NoNotice | Success(message: string) | Error(message: string)

  /** Which API call `_saveTag` makes. */
  datatype SaveCall = NoCall | Create(form: FormData) | Update(id: int, form: FormData)

  const SavingText := "저장 중..."

  /** The error shown by `_loadTags`: the load failure and the error's message. */
  function LoadErrorMessage(e: ApiError): (m: string)
    ensures StartsWith(m, Config.LoadFailed + ": ") && EndsWith(m, e.message)
    ensures |m| == |Config.LoadFailed| + 2 + |e.message|
  {
    Config.LoadFailed + ": " + e.message
  }

  /** `error.message || fallback` of a thrown `ApiError`. */
  function ErrorText(e: ApiError, fallback: string): (m: string)
    ensures m == fallback || (m == e.message && m != "")
    ensures e.message != "" ==> m == e.message
  {
    if e.message != "" then e.message else fallback
  }

  /**
   * The message box after an API answer: the server's message on
   * `success: true`; otherwise the thrown error's message, or `fallback`
   * when it has none (`new Error(undefined).message` is empty).
   */
  function AnswerNotice(answer: Result<Body, ApiError>, fallback: string): (n: Notice)
    ensures n.Success? <==> answer.Ok? && answer.value.success == Some(true)
    ensures n.Success? ==> n.message == answer.value.message.GetOr("")
    ensures answer.Ok? && !n.Success? ==> n == Error(MessageOr(answer.value, fallback))
    ensures answer.Err? ==> n == Error(ErrorText(answer.error, fallback))
    ensures n.Error? ==> n.message != "" || fallback == ""
  {
    match answer
    case Ok(b) =>
      if b.success == Some(true) then Success(b.message.GetOr(""))
      else Error(MessageOr(b, fallback))
    case Err(e) => Error(ErrorText(e, fallback))
  }

  /**
   * The client-side check of `_saveTag`: the name's message when it fails,
   * then the colour's message when that fails, else nothing.
   */
  function FormProblem(form: FormData): (r: Option<string>)
    ensures r.None? <==>
              TagUtils.ValidateTagName(Some(form.name)).isValid && TagUtils.ValidateColor(form.color).isValid
    ensures !TagUtils.ValidateTagName(Some(form.name)).isValid ==>
              r == Some(TagUtils.ValidateTagName(Some(form.name)).message)
    ensures TagUtils.ValidateTagName(Some(form.name)).isValid && !TagUtils.ValidateColor(form.color).isValid ==>
              r == Some(TagUtils.BadColorMessage)
  {
    var nameCheck := TagUtils.ValidateTagName(Some(form.name));
    if !nameCheck.isValid then Some(nameCheck.message)
    else
      var colorCheck := TagUtils.ValidateColor(form.color);
      if !colorCheck.isValid then Some(colorCheck.message) else None
  }

  /** `if (currentTagId)`: an update for a non-null, non-zero id, a creation otherwise. */
  function SaveRequest(form: FormData, id: Option<int>): (c: SaveCall)
    ensures c != NoCall && c.form == form
    ensures c.Update? <==> id.Some? && id.value != 0
    ensures c.Update? ==> c.id == id.value
  {
    if id.Some? && id.value != 0 then Update(id.value, form) else Create(form)
  }

  /** A tag the dialog was opened on is updated, not created again. */
  lemma EditedTagIsUpdated(form: FormData, id: nat)
    requires id != 0
    ensures SaveRequest(form, Some(id)) == Update(id, form)
  {
  }

  /** `tags.find(tag => tag.id === id) || null`. */
  function FindById(tags: seq<TagView>, id: int): (r: Option<TagView>)
    ensures r.None? <==> forall k :: 0 <= k < |tags| ==> tags[k].id != id
    ensures r.Some? ==> exists k :: 0 <= k < |tags| && tags[k] == r.value && r.value.id == id &&
                          forall j :: 0 <= j < k ==> tags[j].id != id
  {
    if tags == [] then None
    else if tags[0].id == id then Some(tags[0])
    else
      var r := FindById(tags[1..], id);
      if r.Some? then
        var k :| 0 <= k < |tags[1..]| && tags[1..][k] == r.value && r.value.id == id &&
                 forall j :: 0 <= j < k ==> tags[1..][j].id != id;
        assert tags[k + 1] == r.value;
        r
      else r
  }

  /** The tags whose lower-cased name contains `term`. */
  function NameContains(tags: seq<TagView>, term: string): (r: seq<TagView>)
    ensures |r| <= |tags|
    ensures forall t :: t in r <==> t in tags && Contains(Lower(t.name), term)
  {
    if tags == [] then []
    else
      assert tags == [tags[0]] + tags[1..];
      (if Contains(Lower(tags[0].name), term) then [tags[0]] else []) + NameContains(tags[1..], term)
  }

  /**
   * searchTagsByName: all tags for a missing or blank term; otherwise
   * those whose lower-cased name contains the trimmed, lower-cased term.
   */
  function SearchByName(tags: seq<TagView>, name: Option<string>): (r: seq<TagView>)
    ensures name.None? || IsBlank(name.value) ==> r == tags
    ensures name.Some? && !IsBlank(name.value) ==>
              forall t :: t in r <==> t in tags && Contains(Lower(t.name), Lower(Trim(name.value)))
  {
    if name.None? || name.value == "" || Trim(name.value) == "" then
      TrimEmptyIffBlank(if name.Some? then name.value else "");
      tags
    else
      TrimEmptyIffBlank(name.value);
      NameContains(tags, Lower(Trim(name.value)))
  }

  /** Searching a tag's own name, in any ASCII case and with spaces around it, finds it. */
  lemma SearchFindsOwnName(tags: seq<TagView>, t: TagView, term: string)
    requires t in tags && !IsBlank(term) && Lower(Trim(term)) == Lower(t.name)
    ensures t in SearchByName(tags, Some(term))
  {
    var s := Lower(t.name);
    assert OccursAt(s, s, 0) by { assert s[0..|s|] == s; }
    ContainsIff(s, s);
  }

  /** The stock question after its leading "태그", the text after the match. */
  function AfterTag(): string { Config.ConfirmDeleteTag[2..] }

  /**
   * The confirmation text of deleteTag: the stock question with its first
   * "태그" replaced by the quoted name and "태그". The name goes through
   * `replace`'s `$` substitution against that match, with nothing before
   * it and the rest of the question after it.
   */
  function DeletePrompt(name: string): (p: string)
    ensures p == "\"" + Substitution(name, "태그", "", AfterTag()) + "\" " + Config.ConfirmDeleteTag
  {
    var s, m := Config.ConfirmDeleteTag, "태그";
    assert s[0] == '태' && s[1] == '그';
    assert StartsWith(s, m) by { assert s[..2] == m; }
    QuotedAtStart(s, m, "\"", name, "\" ");
    assert "\"" + name + ("\" " + m) == "\"" + name + "\" 태그";
    JsReplace(s, m, "\"" + name + "\" 태그")
  }

  /** Replacing a leading match by a quoted text: only the part between the literal texts is substituted. */
  lemma QuotedAtStart(s: string, m: string, q: string, name: string, t0: string)
    requires m != [] && StartsWith(s, m) && NoDollar(q) && NoDollar(t0 + m)
    requires t0 != [] && !IsSubstitutionCode(t0[0])
    ensures JsReplace(s, m, q + name + (t0 + m)) == q + Substitution(name, m, "", s[|m|..]) + t0 + s
  {
    var a := s[|m|..];
    JsReplaceAtStart(s, m, q + name + (t0 + m));
    SubstitutionBetween(q, name, t0 + m, m, "", a);
    assert s == m + a;
  }

  /** A name without `$` appears in the prompt as it is. */
  lemma DeletePromptOfPlainName(name: string)
    requires NoDollar(name)
    ensures DeletePrompt(name) == "\"" + name + "\" " + Config.ConfirmDeleteTag
  {
    SubstitutionOfLiteral(name, "태그", "", AfterTag());
  }

  /** `$&` in a name stands for the matched "태그", and `$$` for one dollar sign. */
  lemma DeletePromptExpandsPatterns()
    ensures DeletePrompt("a$&b") == "\"a태그b\" " + Config.ConfirmDeleteTag
    ensures DeletePrompt("$$") == "\"$\" " + Config.ConfirmDeleteTag
  {
    SampleSubstitutions("태그", AfterTag());
    QuotedPrompt("a$&b", "a" + "태그" + "b", "a태그b");
    QuotedPrompt("$$", "$", "$");
  }

  /** The prompt for a name whose substitution is known. */
  lemma QuotedPrompt(name: string, sub: string, text: string)
    requires Substitution(name, "태그", "", AfterTag()) == sub && sub == text
    ensures DeletePrompt(name) == "\"" + text + "\" " + Config.ConfirmDeleteTag
  {
  }

  lemma SampleSubstitutions(m: string, a: string)
    ensures Substitution("a$&b", m, "", a) == "a" + m + "b"
    ensures Substitution("$$", m, "", a) == "$"
  {
    assert "a$&b"[1..] == "$&b" && "$&b"[2..] == "b" && "b"[1..] == [];
    assert "$$"[2..] == [];
  }

  class TagManager {
    const modal: ModalManager
    const saveButton: TagUtils.Button?
    var tags: seq<TagView>
    var isLoading: bool
    var view: View

    constructor(modal: ModalManager, saveButton: TagUtils.Button?)
      ensures this.modal == modal && this.saveButton == saveButton
      ensures tags == [] && !isLoading && view == Blank
    {
      this.modal := modal;
      this.saveButton := saveButton;
      tags := [];
      isLoading := false;
      view := Blank;
    }

    /** The part of _loadTags before the await: refused while a load is in flight. */
    method BeginLoad() returns (started: bool)
      modifies this`isLoading, this`view
      ensures started <==> !old(isLoading)
      ensures isLoading
      ensures started ==> view == Loading
      ensures !started ==> view == old(view)
    {
      if isLoading {
        return false;
      }
      isLoading := true;
      view := Loading;
      started := true;
    }

    /** The rest of _loadTags: the list and its rendering, or the error; never left loading. */
    method FinishLoad(answer: Result<seq<TagView>, ApiError>)
      modifies this`isLoading, this`view, this`tags
      ensures !isLoading
      ensures answer.Ok? ==> tags == answer.value && view == Rendered(RenderTags(tags, modal.isSuperuser))
      ensures answer.Err? ==> tags == old(tags) && view == LoadError(LoadErrorMessage(answer.error))
    {
      match answer {
        case Ok(list) =>
          tags := list;
          view := Rendered(RenderTags(tags, modal.isSuperuser));
        case Err(e) =>
          view := LoadError(LoadErrorMessage(e));
      }
      isLoading := false;
    }

    /**
     * _loadTags run to completion: nothing at all while another load is
     * in flight; otherwise the answer is applied and loading ends.
     */
    method LoadTags(answer: Result<seq<TagView>, ApiError>)
      modifies this`isLoading, this`view, this`tags
      ensures old(isLoading) ==> isLoading && tags == old(tags) && view == old(view)
      ensures !old(isLoading) ==> !isLoading
      ensures !old(isLoading) && answer.Ok? ==>
                tags == answer.value && view == Rendered(RenderTags(tags, modal.isSuperuser))
      ensures !old(isLoading) && answer.Err? ==>
                tags == old(tags) && view == LoadError(LoadErrorMessage(answer.error))
    {
      var started := BeginLoad();
      if started {
        FinishLoad(answer);
      }
    }

    /**
     * _saveTag: the dialog's form is checked (name, then colour) before
     * any call; without a save button nothing happens; otherwise the
     * button spins during the create or update call, a success closes the
     * dialog and reloads the list, and the button is restored whatever
     * the answer.
     */
    method SaveTag(answer: Result<Body, ApiError>, reload: Result<seq<TagView>, ApiError>)
        returns (call: SaveCall, notice: Notice)
      requires modal.Valid()
      modifies this`isLoading, this`view, this`tags, modal`shown, saveButton
      ensures var problem := FormProblem(old(modal.GetFormData()));
              problem.Some? ==> call == NoCall && notice == Error(problem.value) &&
                                (saveButton != null ==> unchanged(saveButton))
      ensures FormProblem(old(modal.GetFormData())).None? && saveButton == null ==>
                call == NoCall && notice == NoNotice
      ensures FormProblem(old(modal.GetFormData())).None? && saveButton != null ==>
                call == SaveRequest(old(modal.GetFormData()), old(modal.CurrentTagId())) &&
                notice == AnswerNotice(answer, Config.SaveFailed) &&
                saveButton.text == TagUtils.RestoredText(Some(old(saveButton.text))) &&
                !saveButton.disabled && !saveButton.spinner && saveButton.originalText.None?
      ensures notice.Success? ==> !modal.shown
      ensures notice.Success? && old(isLoading) ==> isLoading && tags == old(tags) && view == old(view)
      ensures notice.Success? && !old(isLoading) && reload.Ok? ==>
                !isLoading && tags == reload.value && view == Rendered(RenderTags(tags, modal.isSuperuser))
      ensures notice.Success? && !old(isLoading) && reload.Err? ==>
                !isLoading && tags == old(tags) && view == LoadError(LoadErrorMessage(reload.error))
      ensures !notice.Success? ==>
                tags == old(tags) && view == old(view) && isLoading == old(isLoading) && modal.shown == old(modal.shown)
    {
      var form := modal.GetFormData();
      var id := modal.CurrentTagId();
      var problem := FormProblem(form);
      if problem.Some? {
        return NoCall, Error(problem.value);
      }
      if saveButton == null {
        return NoCall, NoNotice;
      }
      call, notice := SaveWithButton(form, id, answer, reload);
    }

    /**
     * The call of _saveTag once the form has passed: the button spins during
     * the create or update call, a success closes the dialog and reloads the
     * list, and the button is restored whatever the answer.
     */
    method SaveWithButton(form: FormData, id: Option<int>, answer: Result<Body, ApiError>,
                          reload: Result<seq<TagView>, ApiError>)
        returns (call: SaveCall, notice: Notice)
      requires saveButton != null
      modifies this`isLoading, this`view, this`tags, modal`shown, saveButton
      ensures call == SaveRequest(form, id) && notice == AnswerNotice(answer, Config.SaveFailed)
      ensures saveButton.text == TagUtils.RestoredText(Some(old(saveButton.text))) &&
              !saveButton.disabled && !saveButton.spinner && saveButton.originalText.None?
      ensures notice.Success? ==> !modal.shown
      ensures notice.Success? && old(isLoading) ==> isLoading && tags == old(tags) && view == old(view)
      ensures notice.Success? && !old(isLoading) && reload.Ok? ==>
                !isLoading && tags == reload.value && view == Rendered(RenderTags(tags, modal.isSuperuser))
      ensures notice.Success? && !old(isLoading) && reload.Err? ==>
                !isLoading && tags == old(tags) && view == LoadError(LoadErrorMessage(reload.error))
      ensures !notice.Success? ==>
                tags == old(tags) && view == old(view) && isLoading == old(isLoading) && modal.shown == old(modal.shown)
    {
      TagUtils.SetButtonLoading(saveButton, true, SavingText);
      call := SaveRequest(form, id);
      notice := AnswerNotice(answer, Config.SaveFailed);
      if notice.Success? {
        modal.Close();
        LoadTags(reload);
      }
      TagUtils.SetButtonLoading(saveButton, false, TagUtils.DefaultLoadingText);
    }

    /**
     * deleteTag: asks with the tag's name; a declined confirmation makes
     * no call, a confirmed one sends the delete request for `id`; a success
     * reloads the list.
     */
    method DeleteTag(id: nat, name: string, confirmed: bool, answer: Result<Body, ApiError>,
                     reload: Result<seq<TagView>, ApiError>)
        returns (prompt: string, called: bool, requested: Option<nat>, notice: Notice)
      modifies this`isLoading, this`view, this`tags
      ensures prompt == DeletePrompt(name)
      ensures called <==> confirmed
      ensures requested == if confirmed then Some(id) else None
      ensures !confirmed ==> notice == NoNotice && tags == old(tags) && view == old(view)
      ensures confirmed ==> notice == AnswerNotice(answer, Config.DeleteFailed)
      ensures notice.Success? && old(isLoading) ==> isLoading && tags == old(tags) && view == old(view)
      ensures notice.Success? && !old(isLoading) && reload.Ok? ==>
                !isLoading && tags == reload.value && view == Rendered(RenderTags(tags, modal.isSuperuser))
      ensures notice.Success? && !old(isLoading) && reload.Err? ==>
                !isLoading && tags == old(tags) && view == LoadError(LoadErrorMessage(reload.error))
      ensures !notice.Success? ==> tags == old(tags) && view == old(view) && isLoading == old(isLoading)
    {
      prompt := DeletePrompt(name);
      if !confirmed {
        return prompt, false, None, NoNotice;
      }
      called, requested := true, Some(id);
      notice := AnswerNotice(answer, Config.DeleteFailed);
      if notice.Success? {
        LoadTags(reload);
      }
    }

    /** getTagById: the first loaded tag with that id, or null when there is none. */
    function GetTagById(id: int): (r: Option<TagView>)
      reads this
      ensures r.None? <==> forall k :: 0 <= k < |tags| ==> tags[k].id != id
      ensures r.Some? ==> exists k :: 0 <= k < |tags| && tags[k] == r.value && r.value.id == id &&
                            forall j :: 0 <= j < k ==> tags[j].id != id
    {
      FindById(tags, id)
    }

    /** searchTagsByName over the loaded tags. */
    function SearchTagsByName(name: Option<string>): (r: seq<TagView>)
      reads this
      ensures |r| <= |tags|
      ensures name.None? || IsBlank(name.value) ==> r == tags
      ensures name.Some? && !IsBlank(name.value) ==>
                forall t :: t in r <==> t in tags && Contains(Lower(t.name), Lower(Trim(name.value)))
    {
      SearchByName(tags, name)
    }

    /** The `userTags` getter. */
    function UserTagList(): (r: seq<TagView>)
      reads this
      ensures forall t :: t in r <==> t in tags && !t.isDefault
    {
      UserTags(tags)
    }

    /** The `defaultTags` getter. */
    function DefaultTagList(): (r: seq<TagView>)
      reads this
      ensures forall t :: t in r <==> t in tags && t.isDefault
    {
      DefaultTags(tags)
    }

    /** The `tagCount` getter: the two getters together account for every tag. */
    function TagCount(): (n: nat)
      reads this
      ensures n == |tags| == |UserTagList()| + |DefaultTagList()|
    {
      FiltersPartition(tags);
      |tags|
    }
  }

  /** Two loads in a row with no answer between them: the second is refused and changes nothing. */
  method SecondLoadRefused(m: TagManager) returns (first: bool, second: bool)
    modifies m`isLoading, m`view
    ensures first == !old(m.isLoading) && !second
    ensures m.isLoading && m.tags == old(m.tags)
  {
    first := m.BeginLoad();
    second := m.BeginLoad();
  }
}
