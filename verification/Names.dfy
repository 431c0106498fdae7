/** Valid names, and what their validity gives the encodings. */
module Names {

  import opened Prelude
  import opened Text

  const PART_SEPARATOR: char := '\U{1F}'
  const NAME_SEPARATOR: char := '\U{1E}'
  const MAX_NAME_LENGTH := 255
  const MAX_NAMESPACE_DEPTH := 10

  /**
   * The two Unicode tables the rule reads: general category group `C`, and
   * normalization form NFC. Every control character is in group `C`.
   */
  datatype Unicode = Unicode(other: char -> bool, nfc: string -> bool)
  {
    ghost predicate Covers() {
      other(PART_SEPARATOR) && other(NAME_SEPARATOR)
    }
  }

  datatype NameError =
    | EmptyName
    | TooLong
    | UnrenderableCharacter
    | NotNormalized
    | PathSeparator
    | DirectoryName
    | SurroundingWhitespace
    | EmptyNamespace
    | TooDeep

  function ValidateName(u: Unicode, name: string): Result<(), NameError> {
    if name == "" then Err(EmptyName)
    else if |name| > MAX_NAME_LENGTH then Err(TooLong)
    else if exists c :: c in name && u.other(c) then Err(UnrenderableCharacter)
    else if !u.nfc(name) then Err(NotNormalized)
    else if '/' in name || '\\' in name then Err(PathSeparator)
    else if name == "." || name == ".." then Err(DirectoryName)
    else if !IsTrimmed(name) then Err(SurroundingWhitespace)
    else Ok(())
  }

  function ValidateNamespace(u: Unicode, namespace: seq<string>): Result<(), NameError> {
    if namespace == [] then Err(EmptyNamespace)
    else if |namespace| > MAX_NAMESPACE_DEPTH then Err(TooDeep)
    else ValidateEach(u, namespace)
  }

  function ValidateEach(u: Unicode, names: seq<string>): (r: Result<(), NameError>)
    ensures r.Ok? <==> forall i :: 0 <= i < |names| ==> ValidateName(u, names[i]).Ok?
  {
    if names == [] then Ok(())
    else
      var _ :- ValidateName(u, names[0]);
      ValidateEach(u, names[1..])
  }

  /** What the storage layout needs of a name. */
  predicate PathSegment(name: string) {
    name != "" && '/' !in name && name != ".."
  }

  ghost predicate PathSegments(names: seq<string>) {
    forall i :: 0 <= i < |names| ==> PathSegment(names[i])
  }

  /** A validated name is one segment of a path and one part of a joined id. */
  lemma ValidNameIsOneSegment(u: Unicode, name: string)
    requires u.Covers() && ValidateName(u, name).Ok?
    ensures PathSegment(name) && PART_SEPARATOR !in name && NAME_SEPARATOR !in name && "" != name
  {
    assert PART_SEPARATOR in name ==> exists c :: c in name && u.other(c);
    assert NAME_SEPARATOR in name ==> exists c :: c in name && u.other(c);
  }

  lemma ValidNamespaceIsSegments(u: Unicode, namespace: seq<string>)
    requires u.Covers() && ValidateNamespace(u, namespace).Ok?
    ensures namespace != [] && PathSegments(namespace) && Free(namespace, PART_SEPARATOR)
  {
    forall i | 0 <= i < |namespace|
      ensures PathSegment(namespace[i]) && PART_SEPARATOR !in namespace[i]
    {
      ValidNameIsOneSegment(u, namespace[i]);
    }
  }

  /**
   * Exactly the valid names: up to 255 characters, none of group `C`, normalized, no path separator, not a directory's
   * own name, and no whitespace at either end.
   */
  lemma NameIsValidIff(u: Unicode, name: string)
    ensures ValidateName(u, name).Ok? <==>
            && 1 <= |name| <= 255 && u.nfc(name)
            && (forall i :: 0 <= i < |name| ==> !u.other(name[i]) && name[i] != '/' && name[i] != '\\')
            && name != ['.'] && name != ['.', '.']
            && !IsWhitespace(name[0]) && !IsWhitespace(name[|name| - 1])
  {
    if exists c :: c in name && u.other(c) {
      var c :| c in name && u.other(c);
      var i :| 0 <= i < |name| && name[i] == c;
      assert u.other(name[i]);
    }
    assert forall i :: 0 <= i < |name| && u.other(name[i]) ==> name[i] in name;
  }

  /** Exactly the valid namespaces: one to ten valid names. */
  lemma NamespaceIsValidIff(u: Unicode, namespace: seq<string>)
    ensures ValidateNamespace(u, namespace).Ok? <==>
            1 <= |namespace| <= 10 && forall i :: 0 <= i < |namespace| ==> ValidateName(u, namespace[i]).Ok?
  {
  }
}
