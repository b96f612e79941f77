/**
 * A schema the rewrite chain gets wrong: the renaming pass replaces every
 * "type " in the text, including one that ends an entity's title. The table
 * USER_TYPE is titled `User_type`, so its object header `type User_type {`
 * holds "type " twice and the `In…` header comes out as `input InUser_input In{`.
 * The direct generation in SchemaGen (Inputs, DirectSchema) is the corrected text.
 */
module SchemaFinding {
  import opened Text
  import opened SchemaGen

  /** A lower-case name in which every character before the last is a word character is
      titled by upper-casing its first letter alone. */
  lemma TitleOfWord(s: string)
    requires s != [] && forall i | 0 <= i < |s| - 1 :: IsWordChar(s[i])
    ensures Title(s) == [UpperChar(s[0])] + s[1..]
  {
    var r := Title(s);
    forall i | 1 <= i < |s| ensures r[i] == s[i] {
      assert IsWordChar(s[i - 1]);
    }
  }

  lemma UserTypeLower()
    ensures ToLower("USER_TYPE") == "user_type"
  {
    var r := ToLower("USER_TYPE");
    assert |r| == 9;
    forall i | 0 <= i < 9 ensures r[i] == "user_type"[i] {
      assert r[i] == LowerChar("USER_TYPE"[i]);
    }
  }

  lemma UserTypeTrimmed()
    ensures TrimSpace("USER_TYPE") == "USER_TYPE"
  {
    TrimSpaceKeeps("USER_TYPE");
  }

  lemma UserTypeTitled()
    ensures Title("user_type") == "User_type"
  {
    var s := "user_type";
    assert forall i | 0 <= i < |s| - 1 :: IsWordChar(s[i]);
    TitleOfWord(s);
    assert [UpperChar(s[0])] + s[1..] == "User_type";
  }

  lemma UserTypeTitle()
    ensures EntityTitle("USER_TYPE") == "User_type"
  {
    UserTypeTrimmed();
    UserTypeLower();
    UserTypeTitled();
  }

  lemma ObjectBlock(t: Table)
    requires EntityTitle(t.entity) == "User_type" && t.rows == []
    ensures Objects([t]) == "type " + ("User_type" + " {\n" + "" + "}\n\n")
  {
    assert Lines(Marked, t.rows) == "";
    SectionOne("type ", Marked, t);
    Regroup("type ", "User_type", "");
  }

  lemma InputBlock(t: Table)
    requires EntityTitle(t.entity) == "User_type" && t.rows == []
    ensures Inputs([t]) == "input In" + "User_type" + " {\n" + "" + "}\n\n"
  {
    assert Lines(Marked, t.rows) == "";
    SectionOne("input In", Marked, t);
  }

  /** The object declaration of a field-less `User_type` holds "type " twice. */
  lemma UserTypeObjects(t: Table)
    requires EntityTitle(t.entity) == "User_type" && t.rows == []
    ensures Objects([t]) == "type " + ("User_" + ("type " + "{\n}\n\n"))
  {
    ObjectBlock(t);
    assert "User_type" + " {\n" + "" + "}\n\n" == "User_" + ("type " + "{\n}\n\n");
  }

  /** The intended `In…` declaration of a field-less `User_type`. */
  lemma UserTypeInputs(t: Table)
    requires EntityTitle(t.entity) == "User_type" && t.rows == []
    ensures Inputs([t]) == "input InUser_type {\n}\n\n"
  {
    InputBlock(t);
    assert "input In" + "User_type" == "input InUser_type";
    assert "input InUser_type" + " {\n" == "input InUser_type {\n";
    assert "input InUser_type {\n" + "" == "input InUser_type {\n";
    assert "input InUser_type {\n" + "}\n\n" == "input InUser_type {\n}\n\n";
  }

  /** The renaming pass rewrites a "type " that ends a name as well as the keyword. */
  lemma TypeSuffixRenamed(w: string, tail: string)
    requires w != [] && w[|w| - 1] !in "type" && ' ' !in w && ' ' !in tail
    ensures Replace("type " + (w + ("type " + tail)), "type ", "input In") ==
      "input In" + (w + ("input In" + tail))
  {
    ReplacePrefix(w + ("type " + tail), "type ", "input In");
    NoStraddleLeftEnd(w, "type " + tail, "type ");
    ReplaceAppend(w, "type " + tail, "type ", "input In");
    NoOccMissing(w, "type ", ' ');
    ReplaceNoOcc(w, "type ", "input In");
    ReplacePrefix(tail, "type ", "input In");
    NoOccMissing(tail, "type ", ' ');
    ReplaceNoOcc(tail, "type ", "input In");
  }

  /** As written, a table titled `User_type` (USER_TYPE, by UserTypeTitle) gets the input
      header `input InUser_input In{` where `input InUser_type {` is intended, so the
      Mutation root names an input type that is never declared. */
  lemma UserTypeInputMangled(t: Table)
    requires EntityTitle(t.entity) == "User_type" && t.rows == []
    ensures InputPass(Objects([t])) == "input InUser_input In{\n}\n\n"
    ensures Inputs([t]) == "input InUser_type {\n}\n\n"
    ensures InputPass(Objects([t])) != Inputs([t])
  {
    UserTypeObjects(t);
    UserTypeInputs(t);
    TypeSuffixRenamed("User_", "{\n}\n\n");
    MangledHeader();
  }

  lemma MangledHeader()
    ensures "input In" + ("User_" + ("input In" + "{\n}\n\n")) == "input InUser_input In{\n}\n\n"
    ensures "input InUser_input In{\n}\n\n" != "input InUser_type {\n}\n\n"
  {
    assert "input InUser_input In{\n}\n\n"[13] != "input InUser_type {\n}\n\n"[13];
  }
}
