/**
 * How the Gosu lab editor classifies a file by its name: whether the
 * file chooser offers it as a Gosu source (GosuPanel.isValidGosuSourceFile)
 * and which editing mode a freshly opened editor is put in
 * (GosuPanel.initEditorMode).  A java.io.File is represented by its name;
 * a null File is None.
 */
module FileKinds {
  import opened Common
  import opened Strings

  /**
   * isValidGosuSourceFile: a non-null file whose lower-cased name ends with
   * one of the Gosu extensions.  No file is refused, and an accepted name
   * holds the '.' of its extension.
   */
  predicate IsValidGosuSourceFile(file: Option<string>): (r: bool)
    ensures file.None? ==> !r
    ensures r ==> file.Some? && '.' in file.value
  {
    match file
    case None => false
    case Some(name) =>
      var lower := Lower(name);
      DotOfExtension(name, ".gs"); DotOfExtension(name, ".gsx");
      DotOfExtension(name, ".gst"); DotOfExtension(name, ".gsp");
      EndsWith(lower, ".gs") || EndsWith(lower, ".gsx") || EndsWith(lower, ".gst") || EndsWith(lower, ".gsp")
  }

  /** Lower-casing leaves '.' alone, so a dotted suffix of the lower-cased name has its '.' in the name. */
  lemma DotOfExtension(name: string, ext: string)
    requires |ext| > 0 && ext[0] == '.'
    ensures EndsWith(Lower(name), ext) ==> '.' in name
  {
    if EndsWith(Lower(name), ext) {
      var k := |name| - |ext|;
      assert Lower(name)[k..][0] == '.';
      assert name[k] == '.';
    }
  }

  /** The editing modes an editor is put in. */
  datatype EditorKind = Program | Template | Class | Enhancement

  /** The mode initEditorMode chooses for a file name; the suffix tests are case-sensitive. */
  function KindOf(name: string): EditorKind
  {
    if EndsWith(name, ".gsx") then Enhancement
    else if EndsWith(name, ".gs") then Class
    else if EndsWith(name, ".gst") then Template
    else Program
  }

  /** The three case-sensitive suffixes exclude each other, so the order of the tests does not matter. */
  lemma SuffixesExclusive(name: string)
    ensures !(EndsWith(name, ".gsx") && EndsWith(name, ".gs"))
    ensures !(EndsWith(name, ".gsx") && EndsWith(name, ".gst"))
    ensures !(EndsWith(name, ".gs") && EndsWith(name, ".gst"))
  {
    if EndsWith(name, ".gsx") { assert name[|name| - 1] == 'x'; }
    if EndsWith(name, ".gs") { assert name[|name| - 1] == 's'; }
    if EndsWith(name, ".gst") { assert name[|name| - 1] == 't'; }
  }

  /** The chooser accepts a name exactly when its lower-cased form is accepted: the test ignores case. */
  lemma {:induction false} ValidityIgnoresCase(name: string)
    ensures IsValidGosuSourceFile(Some(name)) == IsValidGosuSourceFile(Some(Lower(name)))
  {
    LowerIdempotent(name);
  }

  /** Every file that opens as a class, template or enhancement is also offered as a Gosu source. */
  lemma {:induction false} SourceKindsAreValidSources(name: string)
    requires KindOf(name) != Program
    ensures IsValidGosuSourceFile(Some(name))
  {
    var lower := Lower(name);
    ExtensionsAreLowerCase();
    if EndsWith(name, ".gsx") {
      EndsWithLower(name, ".gsx");
      assert EndsWith(lower, ".gsx");
    } else if EndsWith(name, ".gs") {
      EndsWithLower(name, ".gs");
      assert EndsWith(lower, ".gs");
    } else {
      EndsWithLower(name, ".gst");
      assert EndsWith(lower, ".gst");
    }
  }

  /** The four extensions are already lower case. */
  lemma ExtensionsAreLowerCase()
    ensures Lower(".gs") == ".gs" && Lower(".gsx") == ".gsx" && Lower(".gst") == ".gst" && Lower(".gsp") == ".gsp"
  {
    assert Lower(".gs") == ".gs";
    assert Lower(".gsx") == ".gsx";
    assert Lower(".gst") == ".gst";
    assert Lower(".gsp") == ".gsp";
  }

  /** The converse fails: an upper-case extension is a valid source but opens as a program. */
  lemma UpperCaseExtensionOpensAsProgram()
    ensures IsValidGosuSourceFile(Some("A.GS")) && KindOf("A.GS") == Program
  {
    assert Lower("A.GS") == "a.gs";
    assert Lower("A.GS")[1..] == ".gs";
  }

  /** The four mode flags of a Gosu editor; initEditorMode writes all four. */
  class GosuEditor {
    var program: bool
    var template: bool
    var isClass: bool
    var enhancement: bool

    constructor ()
      ensures !program && !template && !isClass && !enhancement
    {
      program, template, isClass, enhancement := false, false, false, false;
    }

    /** The flag that corresponds to `kind` is the only one set. */
    predicate InMode(kind: EditorKind)
      reads this
    {
      program == (kind == Program) && template == (kind == Template) &&
      isClass == (kind == Class) && enhancement == (kind == Enhancement)
    }
  }

  /**
   * initEditorMode: for a file, sets exactly one mode flag according to the
   * (case-sensitive) suffix of its name; for no file, leaves the editor as it is.
   * Returns the editor it was given.
   */
  method InitEditorMode(file: Option<string>, editor: GosuEditor) returns (r: GosuEditor)
    modifies editor
    ensures r == editor
    ensures file.None? ==> unchanged(editor)
    ensures file.Some? ==> editor.InMode(KindOf(file.value))
    ensures file.Some? ==> (editor.enhancement <==> EndsWith(file.value, ".gsx"))
    ensures file.Some? ==> (editor.isClass <==> EndsWith(file.value, ".gs"))
    ensures file.Some? ==> (editor.template <==> EndsWith(file.value, ".gst"))
    ensures file.Some? ==> (editor.program <==>
      !EndsWith(file.value, ".gsx") && !EndsWith(file.value, ".gs") && !EndsWith(file.value, ".gst"))
  {
    if file.Some? {
      var name := file.value;
      SuffixesExclusive(name);
      if EndsWith(name, ".gsx") {
        editor.program, editor.template, editor.isClass, editor.enhancement := false, false, false, true;
      } else if EndsWith(name, ".gs") {
        editor.program, editor.template, editor.isClass, editor.enhancement := false, false, true, false;
      } else if EndsWith(name, ".gst") {
        editor.program, editor.template, editor.isClass, editor.enhancement := false, true, false, false;
      } else {
        editor.program, editor.template, editor.isClass, editor.enhancement := true, false, false, false;
      }
    }
    r := editor;
  }
}
