/** The values the interface derives from its backend flavour string: the
    background and button colour classes, looked up in a per-flavour table
    with a fallback, and the heading text. */
module Theme {

  /** Background colour class per flavour. */
  const BackgroundColors: map<string, string> := map["go" := "bg-gray-800"]

  /** Button colour class per flavour. */
  const ButtonColors: map<string, string> := map["go" := "bg-gray-700 hover:bg-gray-600"]

  const DefaultBackground := "bg-gray-800"
  const DefaultButton := "bg-gray-700 hover:bg-gray-600"

  /** `table[key] || fallback`: the entry for `key` when there is one and it
      is not the empty string (the one falsy string), otherwise the fallback. */
  function ThemeLookup(table: map<string, string>, key: string, fallback: string): (r: string)
    ensures key in table && table[key] != "" ==> r == table[key]
    ensures (key !in table || table[key] == "") ==> r == fallback
    ensures r == "" ==> fallback == ""
  {
    if key in table && table[key] != "" then table[key] else fallback
  }

  /** When every entry of the table agrees with the fallback, the lookup does
      not depend on the key at all. */
  lemma LookupAgreeingTable(table: map<string, string>, key: string, fallback: string)
    requires forall k :: k in table ==> table[k] == fallback
    ensures ThemeLookup(table, key, fallback) == fallback
  {
  }

  /** The background class of the card for flavour `flavor`. */
  function BgColor(flavor: string): (r: string)
    ensures r == DefaultBackground
  {
    LookupAgreeingTable(BackgroundColors, flavor, DefaultBackground);
    ThemeLookup(BackgroundColors, flavor, DefaultBackground)
  }

  /** The class of the delete buttons for flavour `flavor`. */
  function BtnColor(flavor: string): (r: string)
    ensures r == DefaultButton
  {
    LookupAgreeingTable(ButtonColors, flavor, DefaultButton);
    ThemeLookup(ButtonColors, flavor, DefaultButton)
  }

  /** `c.toUpperCase()` for ASCII: `a`-`z` become `A`-`Z`, all else is kept. */
  function UpperAscii(c: char): (u: char)
    ensures 'a' <= c <= 'z' ==> 'A' <= u <= 'Z' && u as int - 'A' as int == c as int - 'a' as int
    ensures !('a' <= c <= 'z') ==> u == c
  {
    if 'a' <= c <= 'z' then (c as int - 'a' as int + 'A' as int) as char else c
  }

  const TitleSuffix := " Backend"

  /** The heading: the flavour with its first character upper-cased, then
      " Backend". `charAt(0)` of the empty string is empty, so an empty
      flavour gives just " Backend". */
  function Title(flavor: string): (r: string)
    ensures |r| == |flavor| + |TitleSuffix|
    ensures flavor != [] ==> r[0] == UpperAscii(flavor[0])
    ensures forall i :: 1 <= i < |flavor| ==> r[i] == flavor[i]
    ensures r[|flavor|..] == TitleSuffix
  {
    var first := if flavor == [] then [] else [UpperAscii(flavor[0])];
    var rest := if flavor == [] then [] else flavor[1..];
    first + rest + TitleSuffix
  }

  /** Upper-casing the first character once is enough: a flavour that is
      already capitalised gives the same heading. */
  lemma TitleIgnoresFirstCase(flavor: string)
    requires flavor != []
    ensures Title([UpperAscii(flavor[0])] + flavor[1..]) == Title(flavor)
  {
  }

  /** The one flavour the page uses: the heading reads "Go Backend". */
  lemma TitleOfGo()
    ensures Title("go") == "Go Backend"
  {
  }
}
