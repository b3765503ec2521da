/** Rule `tag-name-match`: an element closed by a tag that matches its name
    only case-insensitively must use the same casing in both tags. */
module TagNameMatch {
  import opened Wrappers
  import opened Syntax
  import opened Chars
  import opened Knife

  const RuleName: string := "tag-name-match"
  const Code: string := "E030"

  /** The tag has a close token whose text equals the tag name up to case. */
  predicate ClosesItself(node: Node)
    requires IsTagNode(node)
  {
    node.close.Some? && EqualsIgnoreCase(node.name, node.close.value.chars)
  }

  /** The rule's `lint`. Exactly one E030 at the close token, carrying the
      open token, when the tag closes itself but the open and close texts
      differ; nothing otherwise. The options are not read. */
  function Lint(node: Node, opts: Options): (r: seq<Issue>)
    ensures |r| <= 1
    ensures r != [] <==> IsTagNode(node) && ClosesItself(node) && node.open.chars != node.close.value.chars
    ensures r != [] ==> r == [Issue(Code, node.close.value.loc, OpenData(node.open))]
  {
    if !IsTagNode(node) then []
    else if node.close.None? || ToLower(node.name) != ToLower(node.close.value.chars) then []
    else
      ToLowerEqualIff(node.name, node.close.value.chars);
      if node.open.chars != node.close.value.chars then
        [Issue(Code, node.close.value.loc, OpenData(node.open))]
      else []
  }

  /** For a tag whose name is its open text, E030 is reported exactly when
      the open and close texts are equal up to case but not literally. */
  lemma CasingMismatchIff(node: Node, opts: Options)
    requires IsTagNode(node) && node.close.Some? && node.name == node.open.chars
    ensures Lint(node, opts) != [] <==>
      EqualsIgnoreCase(node.open.chars, node.close.value.chars) && node.open.chars != node.close.value.chars
  {
  }

  /** `<Div></div>` is reported once, at the close tag; `<div></div>` is not. */
  lemma DivExamples(openLoc: Loc, closeLoc: Loc)
    ensures var open := Token("Div", openLoc);
      Lint(Tag("Div", [], open, Some(Token("div", closeLoc)), []), map[])
        == [Issue("E030", closeLoc, OpenData(open))]
    ensures Lint(Tag("div", [], Token("div", openLoc), Some(Token("div", closeLoc)), []), map[]) == []
  {
  }

  /** The options argument has no influence on the output. */
  lemma OptionsIgnored(node: Node, o1: Options, o2: Options)
    ensures Lint(node, o1) == Lint(node, o2)
  {
  }
}
