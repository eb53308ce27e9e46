/** `SanitisedKeyGenerator`: the cache key of a call is derived from its first
    argument; a call without arguments gets a fixed sentinel key. */
module KeyGenerator {
  import opened Wrappers
  import opened Whitespace

  /** The sentinel key of a call without arguments. */
  const DefaultKey: string := "defaultKey"

  /** `String.valueOf` on a string argument: a null reference prints as the
      four letters "null". */
  function ValueOf(arg: Option<string>): string {
    match arg
    case None => "null"
    case Some(s) => s
  }

  /** The key for a call with arguments `params`. */
  function Generate(params: seq<Option<string>>): (key: string)
    ensures params == [] ==> key == DefaultKey
    ensures params != [] ==> key == NormalizeSpace(ValueOf(params[0]))
    ensures params != [] ==> Normalized(key) && Strip(key) == Strip(ValueOf(params[0]))
  {
    if params == [] then DefaultKey
    else
      NormalizeKeepsText(ValueOf(params[0]));
      NormalizeSpace(ValueOf(params[0]))
  }

  /** Only the first argument matters: arguments after it never change the key. */
  lemma KeyIgnoresLaterArguments(params: seq<Option<string>>, others: seq<Option<string>>)
    requires params != []
    ensures Generate([params[0]] + others) == Generate(params)
  {
  }

  /** A null argument and the text "null" share one key. */
  lemma NullSharesKeyWithNullText()
    ensures Generate([None]) == Generate([Some("null")]) == "null"
  {
    NormalizeFixesNormalized("null");
  }

  /** Every empty or all-whitespace argument gets the empty key, and no other
      argument does. */
  lemma BlankArgumentsShareEmptyKey(s: string)
    ensures Generate([Some(s)]) == "" <==> forall i :: 0 <= i < |s| ==> IsWhitespace(s[i])
  {
    NormalizeEmptyIffBlank(s);
  }

  /** Keys are stable: a key used as an argument gives back the same key. */
  lemma KeyIsStable(params: seq<Option<string>>)
    requires params != []
    ensures Generate([Some(Generate(params))]) == Generate(params)
  {
    NormalizeIdempotent(ValueOf(params[0]));
  }

  /** The pieces the examples below are made of. */
  lemma ExampleParts()
    ensures IsBlank("") && IsBlank("  ") && IsBlank("   ") && IsBlank("\t\n")
    ensures IsWord("John") && IsWord("Doe")
  {
  }

  /** The padded two-word example, cut at its runs of spaces. */
  lemma SpacesSplit(name: string)
    requires name == "  John   Doe  "
    ensures name == "  " + "John" + "   " + "Doe" + "  "
  {
  }

  /** Runs of spaces at both ends and inside collapse as expected. */
  lemma SpacesExample(name: string)
    requires name == "  John   Doe  "
    ensures Generate([Some(name)]) == "John Doe"
  {
    SpacesSplit(name);
    ExampleParts();
    NormalizeTwoWords("  ", "John", "   ", "Doe", "  ");
  }

  /** A tab followed by a newline becomes one space. */
  lemma TabNewlineExample(john: string, tabNewline: string, doe: string)
    requires john == "John" && tabNewline == "\t\n" && doe == "Doe"
    ensures Generate([Some(john + tabNewline + doe)]) == "John Doe"
  {
    ExampleParts();
    NormalizeTwoWords([], john, tabNewline, doe, []);
    assert [] + john + tabNewline + doe + [] == john + tabNewline + doe;
  }

  /** The empty argument and a blank one share the empty key. */
  lemma BlankExample()
    ensures Generate([Some("")]) == Generate([Some("   ")]) == ""
  {
    NormalizeEmptyIffBlank("   ");
  }
}
