/** Rule `lang-style`: the `lang` attribute of the `html` tag must be a valid
    language tag and, when configured with "case", canonically cased. */
module LangStyle {
  import opened Wrappers
  import opened Syntax
  import opened Chars
  import opened Knife

  const RuleName: string := "lang-style"
  const InvalidCode: string := "E038"
  const CasingCode: string := "E039"

  /** The classifier's answers that lead to a report. */
  const InvalidSubtag: int := 1
  const NonCanonicalCase: int := 2

  /** The two ways `validateConfig` throws. */
  datatype ConfigError =
    | OnlyCaseString               // a string other than "case"
    | ExpectedBoolean(got: string) // neither boolean nor string; `got` is its `typeof`

  /** `validateConfig`: a boolean or the string "case" is returned unchanged;
      any other string, and any value of another type, is rejected. */
  function ValidateConfig(style: Value): (r: Result<Value, ConfigError>)
    ensures r.Success? <==> style.Bool? || style == Str("case")
    ensures r.Success? ==> r.value == style
    ensures style.Str? && style.s != "case" ==> r == Failure(OnlyCaseString)
    ensures !style.Bool? && !style.Str? ==> r == Failure(ExpectedBoolean(TypeOf(style)))
  {
    if TypeOf(style) == "string" && style != Str("case") then Failure(OnlyCaseString)
    else if TypeOf(style) != "boolean" && TypeOf(style) != "string" then Failure(ExpectedBoolean(TypeOf(style)))
    else Success(style)
  }

  /** `opts["lang-style"] === "case"`. */
  predicate CaseRequested(opts: Options) {
    "lang-style" in opts && opts["lang-style"] == Str("case")
  }

  /** The rule's applicability guard: an `html` tag (exact, case-sensitive
      name) with a non-empty `lang` whose value is not a placeholder run. */
  predicate Applies(k: Collaborators, node: Node) {
    && IsTagNode(node)
    && node.name == "html"
    && k.hasNonEmptyAttribute(node, "lang")
    && k.attributeValue(node, "lang").Some?
    && !IsPlaceholder(k.attributeValue(node, "lang").value.chars)
  }

  /** What the rule relies on from its helpers: once a non-empty `lang` is
      known, its value can be read. */
  predicate LangReadable(k: Collaborators, node: Node) {
    IsTagNode(node) && node.name == "html" && k.hasNonEmptyAttribute(node, "lang") ==>
      k.attributeValue(node, "lang").Some?
  }

  /** The issue with `code`, placed at the lang value and carrying its raw text. */
  function LangIssue(code: string, lang: Token): Issue {
    Issue(code, lang.loc, LangData(lang.chars))
  }

  /** The rule's `lint`. */
  function Lint(k: Collaborators, node: Node, opts: Options): (r: seq<Issue>)
    requires LangReadable(k, node)
    ensures |r| <= 1
    ensures !Applies(k, node) ==> r == []
    ensures Applies(k, node) ==>
      var lang := k.attributeValue(node, "lang").value;
      var valid := k.checkLangAttribute(lang);
      && (r == [LangIssue(InvalidCode, lang)] <==> valid == InvalidSubtag)
      && (r == [LangIssue(CasingCode, lang)] <==> valid == NonCanonicalCase && CaseRequested(opts))
      && (r == [] <==> valid != InvalidSubtag && !(valid == NonCanonicalCase && CaseRequested(opts)))
  {
    if !IsTagNode(node) || node.name != "html" then []
    else if !k.hasNonEmptyAttribute(node, "lang") then []
    else
      var caseOpt := if "lang-style" in opts then opts["lang-style"] else Undefined;
      var lang := k.attributeValue(node, "lang").value;
      if IsPlaceholder(lang.chars) then []
      else
        var valid := k.checkLangAttribute(lang);
        var invalid := if valid == InvalidSubtag then [LangIssue(InvalidCode, lang)] else [];
        var casing := if caseOpt == Str("case") && valid == NonCanonicalCase then [LangIssue(CasingCode, lang)] else [];
        assert invalid == [] || casing == [];
        assert InvalidCode[3] != CasingCode[3];
        assert invalid + casing == if invalid == [] then casing else invalid;
        invalid + casing
  }

  /** E038 and E039 are never reported together, and every issue carries
      one of the two codes with the lang value's position and text. */
  lemma AtMostOneCode(k: Collaborators, node: Node, opts: Options)
    requires LangReadable(k, node)
    ensures |Lint(k, node, opts)| <= 1
    ensures forall j :: 0 <= j < |Lint(k, node, opts)| ==>
      var issue := Lint(k, node, opts)[j];
      var lang := k.attributeValue(node, "lang").value;
      && Applies(k, node)
      && (issue.code == InvalidCode || issue.code == CasingCode)
      && issue.position == lang.loc
      && issue.data == LangData(lang.chars)
  {
  }

  /** Asking for "case" only ever adds the E039 report: without it the output
      is the E038 report alone, with it E039 may follow. */
  lemma CaseOnlyAdds(k: Collaborators, node: Node, opts: Options)
    requires LangReadable(k, node)
    ensures var strict := Lint(k, node, opts["lang-style" := Str("case")]);
      var lax := Lint(k, node, opts["lang-style" := Bool(true)]);
      && |lax| <= |strict|
      && (lax != [] ==> lax == strict)
      && (forall j :: 0 <= j < |lax| ==> lax[j].code == InvalidCode)
  {
  }

  /** Under any configuration `validateConfig` accepts, E039 is reported
      exactly when the configuration is "case" and the classifier answers 2;
      E038 does not depend on the configuration at all. */
  lemma ValidatedStyleGovernsCasing(k: Collaborators, node: Node, style: Value, opts: Options)
    requires LangReadable(k, node) && Applies(k, node)
    requires ValidateConfig(style).Success?
    ensures var lang := k.attributeValue(node, "lang").value;
      var r := Lint(k, node, opts["lang-style" := ValidateConfig(style).value]);
      && (LangIssue(CasingCode, lang) in r <==> style == Str("case") && k.checkLangAttribute(lang) == NonCanonicalCase)
      && (LangIssue(InvalidCode, lang) in r <==> LangIssue(InvalidCode, lang) in Lint(k, node, opts))
  {
  }

  /** `<html lang="en-US">` under "case", with the classifier answering 2,
      yields exactly one E039 at the lang value. */
  lemma EnUsUnderCase(loc: Loc, attrLoc: Loc, open: Token)
    ensures var lang := Token("en-US", loc);
      var node := Tag("html", [Attribute(Token("lang", attrLoc), Some(lang), attrLoc)], open, None, []);
      var k := Collaborators(
        (n: Node, name: string) => name == "lang",
        (n: Node, name: string) => if name == "lang" then Some(lang) else None,
        (name: string) => false,
        (t: Token) => if t.chars == "en-US" then 2 else 0);
      Lint(k, node, map["lang-style" := Str("case")]) == [Issue("E039", loc, LangData("en-US"))]
  {
    assert "en-US"[0] != Sentinel;
  }
}
