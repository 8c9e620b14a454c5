// The `Tag` table: its field constraints, its two conditional uniqueness
// constraints, `__str__` and `clean`.
module TagModel {
  import opened Wrappers
  import opened Strings

  type UserId = nat

  /** A row of the tag table; `user` is None for a system-wide tag. */
  datatype Tag = Tag(id: nat, user: Option<UserId>, name: string, color: string, isDefault: bool)

  const MaxNameLength: nat := 50
  const MaxColorLength: nat := 7

  /**
   * What `re.search(r"^#[0-9A-Fa-f]{6}$", c)` accepts: Python's `$` also
   * matches just before one trailing newline.
   */
  predicate ColorRegexMatches(c: string): (r: bool)
    ensures r ==> 7 <= |c| <= 8 && IsHexColor6(c[..7])
    ensures r && |c| <= MaxColorLength ==> IsHexColor6(c)
  {
    IsHexColor6(c) || (|c| == 8 && c[7] == '\n' && IsHexColor6(c[..7]))
  }

  /** The field-level validation of a row (max lengths, non-blank name, colour regex). */
  predicate FieldsValid(t: Tag) {
    0 < |t.name| <= MaxNameLength && |t.color| <= MaxColorLength && ColorRegexMatches(t.color)
  }

  /** With the seven-character limit, the colour is exactly `#RRGGBB`. */
  lemma ValidColorIsHex6(t: Tag)
    requires FieldsValid(t)
    ensures IsHexColor6(t.color)
  {
  }

  /** The regex alone admits one more string than the field accepts. */
  lemma RegexAloneAdmitsNewline()
    ensures ColorRegexMatches("#a0B1c2\n") && !IsHexColor6("#a0B1c2\n")
  {
    assert "#a0B1c2\n"[..7] == "#a0B1c2";
    assert AllHex("#a0B1c2"[1..]);
  }

  // ---------------------------------------------------------------------
  // Uniqueness constraints

  /** unique_user_tag_name: among user-owned tags, (user, name) is unique. */
  predicate UniqueUserNames(tags: seq<Tag>) {
    forall i, j :: 0 <= i < j < |tags| && tags[i].user.Some? && tags[i].user == tags[j].user ==>
      tags[i].name != tags[j].name
  }

  /** unique_default_tag_name: among default tags, the name is unique. */
  predicate UniqueDefaultNames(tags: seq<Tag>) {
    forall i, j :: 0 <= i < j < |tags| && tags[i].isDefault && tags[j].isDefault ==>
      tags[i].name != tags[j].name
  }

  predicate ConstraintsHold(tags: seq<Tag>) {
    UniqueUserNames(tags) && UniqueDefaultNames(tags)
  }

  predicate ClashesWithUserTag(tags: seq<Tag>, t: Tag) {
    t.user.Some? && exists k :: 0 <= k < |tags| && tags[k].user == t.user && tags[k].name == t.name
  }

  predicate ClashesWithDefaultTag(tags: seq<Tag>, t: Tag) {
    t.isDefault && exists k :: 0 <= k < |tags| && tags[k].isDefault && tags[k].name == t.name
  }

  const DuplicateUserTagMessage: string := "이미 같은 이름의 태그가 존재합니다."
  const DuplicateDefaultTagMessage: string := "이미 같은 이름의 기본 태그가 존재합니다."

  /** Inserting a row: the database refuses it, with the constraint's message, on a clash. */
  function Insert(tags: seq<Tag>, t: Tag): (r: Result<seq<Tag>, string>)
    ensures r.Ok? <==> !ClashesWithUserTag(tags, t) && !ClashesWithDefaultTag(tags, t)
    ensures r.Ok? ==> r.value == tags + [t]
    ensures r.Err? ==> r.error == (if ClashesWithUserTag(tags, t) then DuplicateUserTagMessage
                                   else DuplicateDefaultTagMessage)
  {
    if ClashesWithUserTag(tags, t) then Err(DuplicateUserTagMessage)
    else if ClashesWithDefaultTag(tags, t) then Err(DuplicateDefaultTagMessage)
    else Ok(tags + [t])
  }

  /** An accepted insert keeps both uniqueness constraints. */
  lemma InsertPreservesConstraints(tags: seq<Tag>, t: Tag)
    requires ConstraintsHold(tags)
    requires Insert(tags, t).Ok?
    ensures ConstraintsHold(Insert(tags, t).value)
  {
    var s := tags + [t];
    forall i, j | 0 <= i < j < |s| && s[i].user.Some? && s[i].user == s[j].user
      ensures s[i].name != s[j].name
    {
      if j == |tags| {
        assert !ClashesWithUserTag(tags, t);
        assert tags[i].user == t.user;
      }
    }
    forall i, j | 0 <= i < j < |s| && s[i].isDefault && s[j].isDefault
      ensures s[i].name != s[j].name
    {
      if j == |tags| {
        assert !ClashesWithDefaultTag(tags, t);
        assert tags[i].isDefault;
      }
    }
  }

  /** A user tag may share its name with another user's tag or with a default tag. */
  lemma SameNameForDifferentOwners()
    ensures Insert([Tag(1, Some(1), "운동", "#112233", false)], Tag(2, Some(2), "운동", "#445566", false)).Ok?
    ensures Insert([Tag(1, None, "운동", "#112233", true)], Tag(2, Some(2), "운동", "#445566", false)).Ok?
    ensures Insert([Tag(1, None, "운동", "#112233", true)], Tag(2, None, "운동", "#445566", true)).Err?
  {
    assert Tag(1, None, "운동", "#112233", true).isDefault;
    var tags := [Tag(1, None, "운동", "#112233", true)];
    assert tags[0].isDefault && tags[0].name == "운동";
  }

  // ---------------------------------------------------------------------
  // __str__ and clean

  /** `__str__`; `username` gives the owning user's name. */
  function Str(t: Tag, username: UserId -> string): (r: string)
    ensures t.isDefault ==> r == "[기본] " + t.name
    ensures !t.isDefault && t.user.Some? ==> r == username(t.user.value) + " - " + t.name
    ensures !t.isDefault && t.user.None? ==> r == "시스템 - " + t.name
  {
    if t.isDefault then "[기본] " + t.name
    else (if t.user.Some? then username(t.user.value) else "시스템") + " - " + t.name
  }

  const BlankNameMessage: string := "태그명은 공백일 수 없습니다."

  /**
   * `clean`: a non-empty name is stripped in place (also when the check then
   * fails); a name that strips to nothing is refused. Gives the row after
   * the call and the validation error, if any.
   */
  function Clean(t: Tag): (r: (Tag, Option<string>))
    ensures r.0 == t.(name := r.0.name)
    ensures t.name != "" ==> r.0.name == Trim(t.name)
    ensures r.0.name == "" || (!IsSpace(r.0.name[0]) && !IsSpace(r.0.name[|r.0.name| - 1]))
    ensures r.1.Some? <==> t.name != "" && IsBlank(t.name)
    ensures r.1.Some? ==> r.1.value == BlankNameMessage && r.0.name == ""
    ensures r.1.None? && t.name != "" ==> r.0.name != ""
    ensures t.name == "" ==> r == (t, None)
  {
    var name := if t.name != "" then Trim(t.name) else t.name;
    TrimEmptyIffBlank(t.name);
    TrimEnds(t.name);
    (t.(name := name), if t.name != "" && name == "" then Some(BlankNameMessage) else None)
  }

  lemma TrimEnds(s: string)
    ensures var r := Trim(s); r == [] || (!IsSpace(r[0]) && !IsSpace(r[|r| - 1]))
  {
    var l := TrimLeft(s);
    var r := Trim(s);
    if r != [] {
      assert r == l[..|r|];
      assert r[0] == l[0];
    }
  }

  /** Cleaning is idempotent on a name it accepted. */
  lemma CleanIdempotent(t: Tag)
    requires Clean(t).1.None?
    ensures Clean(Clean(t).0) == (Clean(t).0, None)
  {
    var c := Clean(t).0;
    if t.name != "" {
      assert c.name == Trim(t.name) != "";
      TrimOfTrimmed(c.name);
      TrimEmptyIffBlank(c.name);
      assert Clean(c).0 == c;
    }
  }

  lemma TrimOfTrimmed(s: string)
    requires s != [] && !IsSpace(s[0]) && !IsSpace(s[|s| - 1])
    ensures Trim(s) == s
  {
    TrimLeftKeeps(s);
    TrimRightKeeps(s);
  }
}
