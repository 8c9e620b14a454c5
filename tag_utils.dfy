// The tag page's client-side helpers: the tag-name and colour validators and
// the button loading state. (Its `getCookie` is `Cookies.GetCookieSegment`.)
module TagUtils {
  import opened Wrappers
  import opened Strings
  import Config = TagsConfig
  import TagModel

  /** `{isValid, message}` of a validator. */
  datatype Validation = Validation(isValid: bool, message: string)

  const EmptyNameMessage := "태그명을 입력해주세요."
  const LongNameMessage := "태그명은 50자 이하로 입력해주세요."
  const BadColorMessage := "올바른 색상 코드를 입력해주세요."

  /**
   * validateTagName: a missing, empty or blank name is refused first, then
   * a trimmed name longer than the limit; anything else passes silently.
   * The limit is on JavaScript's `length`, which counts UTF-16 code units.
   */
  function ValidateTagName(name: Option<string>): (r: Validation)
    ensures r.isValid <==> name.Some? && !IsBlank(name.value) && Utf16Length(Trim(name.value)) <= Config.MaxTagNameLength
    ensures r.isValid <==> r.message == ""
    ensures (name.None? || IsBlank(name.value)) ==> r == Validation(false, EmptyNameMessage)
    ensures name.Some? && !IsBlank(name.value) && Utf16Length(Trim(name.value)) > Config.MaxTagNameLength ==>
              r == Validation(false, LongNameMessage)
  {
    if name.None? || name.value == "" || Trim(name.value) == "" then
      TrimEmptyIffBlank(if name.Some? then name.value else "");
      Validation(false, EmptyNameMessage)
    else
      TrimEmptyIffBlank(name.value);
      if Utf16Length(Trim(name.value)) > Config.MaxTagNameLength then Validation(false, LongNameMessage)
      else Validation(true, "")
  }

  /** `#` and three hexadecimal digits: the short colour form. */
  predicate IsHexColor3(c: string) {
    |c| == 4 && c[0] == '#' && AllHex(c[1..])
  }

  /** validateColor: `/^#([A-Fa-f0-9]{6}|[A-Fa-f0-9]{3})$/`. */
  function ValidateColor(color: string): (r: Validation)
    ensures r.isValid <==> IsHexColor6(color) || IsHexColor3(color)
    ensures r.isValid <==> r.message == ""
    ensures !r.isValid ==> r.message == BadColorMessage
  {
    if IsHexColor6(color) || IsHexColor3(color) then Validation(true, "")
    else Validation(false, BadColorMessage)
  }

  /**
   * A name the client accepts passes the model's `clean` and its length
   * limit: cleaning strips it to a non-empty name of at most 50 characters.
   */
  lemma ClientNamePassesServer(t: TagModel.Tag)
    requires ValidateTagName(Some(t.name)).isValid
    ensures TagModel.Clean(t).1.None?
    ensures 0 < |TagModel.Clean(t).0.name| <= TagModel.MaxNameLength
  {
    TrimEmptyIffBlank(t.name);
  }

  /**
   * The two limits count differently: 26 characters outside the Basic
   * Multilingual Plane (emoji, say) are 52 code units, refused by the
   * client, while the server's limit of 50 counts them as 26 characters.
   */
  lemma AstralNameRefusedByClientOnly(name: string)
    requires |name| == 26
    requires forall k :: 0 <= k < |name| ==> IsAstral(name[k])
    ensures !ValidateTagName(Some(name)).isValid
    ensures |Trim(name)| <= TagModel.MaxNameLength
  {
    assert !IsSpace(name[0]) && !IsSpace(name[|name| - 1]) && !IsBlank(name);
    TrimLeftKeeps(name);
    TrimRightKeeps(name);
    assert Trim(name) == name;
    assert Utf16Length(name) == 2 * |name|;
  }

  /**
   * The client's colour check and the model's differ both ways: every
   * six-digit colour passes both, the short form passes only the client,
   * and a colour with a trailing newline passes only the server's regex.
   */
  lemma ColorChecksDiffer(c: string)
    ensures IsHexColor6(c) ==> ValidateColor(c).isValid && TagModel.ColorRegexMatches(c)
    ensures ValidateColor("#a0F").isValid && !TagModel.ColorRegexMatches("#a0F")
    ensures TagModel.ColorRegexMatches("#a0B1c2\n") && !ValidateColor("#a0B1c2\n").isValid
  {
    assert AllHex("#a0F"[1..]);
    TagModel.RegexAloneAdmitsNewline();
    assert !IsHexColor3("#a0B1c2\n");
  }

  // ---------------------------------------------------------------------
  // LoadingManager.setButtonLoading

  const DefaultButtonText := "확인"
  const DefaultLoadingText := "처리 중..."

  /** `button.dataset.originalText || '확인'`: the saved text unless missing or empty. */
  function RestoredText(saved: Option<string>): (r: string)
    ensures r != ""
    ensures r == DefaultButtonText || saved == Some(r)
    ensures saved.Some? && saved.value != "" ==> r == saved.value
  {
    if saved.Some? && saved.value != "" then saved.value else DefaultButtonText
  }

  /**
   * A button: its text content, whether it is disabled, whether it shows
   * the spinner, and `dataset.originalText`.
   */
  class Button {
    var text: string
    var disabled: bool
    var spinner: bool
    var originalText: Option<string>

    constructor(text: string)
      ensures this.text == text && !disabled && !spinner && originalText.None?
    {
      this.text := text;
      disabled := false;
      spinner := false;
      originalText := None;
    }
  }

  /**
   * setButtonLoading: loading saves the text, disables the button and shows
   * the spinner with `loadingText`; the reverse re-enables it, puts back the
   * saved text (or "확인" when none or an empty one was saved) and forgets it.
   */
  method SetButtonLoading(button: Button?, loading: bool, loadingText: string)
    modifies button
    ensures button != null && loading ==>
              button.originalText == Some(old(button.text)) && button.disabled &&
              button.spinner && button.text == loadingText
    ensures button != null && !loading ==>
              !button.disabled && !button.spinner && button.originalText.None? &&
              button.text == RestoredText(old(button.originalText))
  {
    if button == null {
      return;
    }
    if loading {
      button.originalText := Some(button.text);
      button.disabled := true;
      button.spinner := true;
      button.text := loadingText;
    } else {
      button.disabled := false;
      button.spinner := false;
      button.text := RestoredText(button.originalText);
      button.originalText := None;
    }
  }
}
