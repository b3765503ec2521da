# linthtml rules: attr-req-value, lang-style, tag-name-match

A Dafny model of three per-node rules of the linthtml markup linter. A rule
receives one syntax-tree node and its options and hands issues to a `report`
callback; here each rule is a pure function returning the reported issues as
a `seq<Issue>`, in call order. The engine attaches the configured severity
afterwards.

- `wrappers.dfy` — `Option` and `Result`.
- `syntax.dfy` — the node model (`Node`, `Attribute`, `Token`, `Loc`), the
  issue record (`Issue`, `IssueData`), and JavaScript configuration values
  (`Value`, `TypeOf`).
- `chars.dfy` — ASCII lowercasing and the placeholder-run predicate that
  replaces the regular expression `/^¤+$/`.
- `knife.dfy` — the helper library: `IsTagNode`, and the `Collaborators` record
  that carries the helpers whose bodies are not part of this model
  (`has_non_empty_attribute`, `attribute_value`, `is_boolean_attribute`,
  `check_lang_attribute`) as uninterpreted total functions.
- `attr_req_value.dfy`, `lang_style.dfy`, `tag_name_match.dfy` — the rules.

Each rule is paired with an independent statement of its behaviour.
attr-req-value filters out placeholders and then reports each remaining
attribute. This is proved equal to a one-pass reference, `Expected`, which
concatenates each attribute's verdict. The per-attribute, soundness and
completeness lemmas follow from that equality.
lang-style's `lint` is tied to its own `validateConfig`.
tag-name-match's lowercase comparison is proved equal to a character-wise
case-insensitive equality.

The lang-style options are modelled as an object with a `"lang-style"` key,
because the rule reads `opts["lang-style"]`.

## Model

| member | source | states |
|---|---|---|
| Chars.LowerChar | lib/rules/attr-req-value/index.js:18 | an ASCII capital maps to the matching small letter; every other character is unchanged; the result is never a capital |
| Chars.ToLower | lib/rules/attr-req-value/index.js:18 | lowercasing keeps the length and lowers each ASCII letter, leaving every other character alone |
| Chars.ToLowerEqualIff | lib/rules/tag-name-match/index.js:12 | two strings have equal lowercasings exactly when they are equal character by character up to ASCII case |
| Chars.PlaceholderUnderLower | lib/rules/attr-req-value/index.js:16-18 | a lowercased name is a run of `¤` exactly when the raw name is, so a filtered attribute never reports a placeholder name |
| Syntax.TypeOf | lib/rules/lang-style/index.js:11-12 | `typeof` is "boolean" exactly for booleans and "string" exactly for strings |
| AttrReqValue.DropSentinels | lib/rules/attr-req-value/index.js:16 | as a set, the filter keeps exactly the attributes whose name is not a placeholder run, and it never grows the list |
| AttrReqValue.DropSentinelsAppend | lib/rules/attr-req-value/index.js:16 | the filter distributes over concatenation, so survivors keep their order and repetitions |
| AttrReqValue.ReportEach | lib/rules/attr-req-value/index.js:17-31 | no more reports than attributes; each report is the E006 of an attribute with no non-empty value that is not boolean |
| AttrReqValue.ReportEachIsExpected | lib/rules/attr-req-value/index.js:17-31 | on attributes that are not placeholders, the loop reports each attribute's own verdict exactly once, in attribute order |
| AttrReqValue.Lint | lib/rules/attr-req-value/index.js:11-32 | a non-tag yields nothing; for a tag, issues are at most the non-placeholder attributes, each the E006 of one lacking a value |
| AttrReqValue.AttributeIssues | lib/rules/attr-req-value/index.js:16-30 | one attribute yields an issue iff it is not a placeholder, has no non-empty value under its lowercased name and is not boolean; the issue is E006 at its loc naming the lowercased name |
| AttrReqValue.ExpectedAppend | lib/rules/attr-req-value/index.js:17-31 | the reference over a concatenation of attribute lists is the concatenation of the references, so reports follow attribute order |
| AttrReqValue.FilterThenReport | lib/rules/attr-req-value/index.js:16-31 | filtering then reporting equals the one-pass per-attribute reference |
| AttrReqValue.LintIsExpected | lib/rules/attr-req-value/index.js:11-31 | the output on a tag is the per-attribute verdicts concatenated in attribute order |
| AttrReqValue.AttributeVerdict | lib/rules/attr-req-value/index.js:17-30 | attribute i contributes exactly its own verdict, placed between the issues of earlier and later attributes |
| AttrReqValue.MissingValueReported | lib/rules/attr-req-value/index.js:18-29 | every non-placeholder attribute lacking a value and not boolean is reported |
| AttrReqValue.ReportedNamesLackValues | lib/rules/attr-req-value/index.js:18-28 | every issue is E006 naming a name that has no ASCII capital, is not a placeholder, is not boolean and has no non-empty attribute |
| AttrReqValue.BooleanAttributeNeverReported | lib/rules/attr-req-value/index.js:20 | a boolean attribute is never reported, whatever its value |
| AttrReqValue.OptionsIgnored | lib/rules/attr-req-value/index.js:11-31 | the options do not affect the output |
| LangStyle.ValidateConfig | lib/rules/lang-style/index.js:6-16 | booleans and "case" are returned unchanged; other strings fail with the "only case" error; other types fail naming their `typeof` |
| LangStyle.Lint | lib/rules/lang-style/index.js:18-58 | at most one issue; nothing unless an exact `html` tag has a non-empty, non-placeholder lang; class 1 gives exactly E038, class 2 gives exactly E039 iff "case" is configured, otherwise nothing |
| LangStyle.AtMostOneCode | lib/rules/lang-style/index.js:35-57 | at most one issue, so E038 and E039 never both appear; every issue is E038 or E039 at the lang value's loc carrying its raw text, and only when the rule applies |
| LangStyle.CaseOnlyAdds | lib/rules/lang-style/index.js:47-57 | switching from `true` to "case" only ever adds the E039 report |
| LangStyle.ValidatedStyleGovernsCasing | lib/rules/lang-style/index.js:6-57 | when the validated value is the options' `"lang-style"` entry, E039 is reported iff it is "case" and the class is 2; E038 is independent of the configuration |
| LangStyle.EnUsUnderCase | lib/rules/lang-style/index.js:47-57 | `<html lang="en-US">` under "case" with class 2 gives exactly one E039 at the lang value |
| TagNameMatch.Lint | lib/rules/tag-name-match/index.js:5-27 | at most one issue; E030 is reported iff the node is a tag whose close equals its name up to case but differs from the open text; it is placed at the close and carries the open token |
| TagNameMatch.CasingMismatchIff | lib/rules/tag-name-match/index.js:12-26 | when the name is the open text, E030 is reported iff open and close are equal up to case but not literally |
| TagNameMatch.DivExamples | lib/rules/tag-name-match/index.js:16-26 | `<Div></div>` gives one E030 at the close tag; `<div></div>` gives none |
| TagNameMatch.OptionsIgnored | lib/rules/tag-name-match/index.js:5-27 | the options do not affect the output |

## Left out

- The linter engine and configuration resolver are not part of this model. These are `lib/linter` and `lib/config`, which test/unit/linter.js exercises. The engine attaches the configured severity ("error" or "warning") to every issue a rule reports; no rule here sees severities.
- Custom parser loading and the `CORE-04` construction error are left out. They are module resolution and asynchronous I/O.
- The bodies of `has_non_empty_attribute`, `attribute_value`, `is_boolean_attribute` and `check_lang_attribute` are not part of this model. They are parameters of every rule, so no language-tag grammar or boolean-attribute list is assumed.
- Chars.ToLower: lowers ASCII letters only. JavaScript's `toLowerCase` also lowers non-ASCII letters; it never produces or consumes `¤`.
- Exception objects and message texts of `validateConfig` are left out. The two throw sites are the two `ConfigError` variants.
- Syntax.TypeOf: covers booleans, strings, numbers, null, undefined and plain objects. Functions, symbols and bigints are not configuration values here.
- Child nodes are carried by `Tag` but not traversed. Traversal belongs to the engine, and each rule looks at one node.
- LangStyle.Lint: requires that `attribute_value` returns the `lang` value whenever `has_non_empty_attribute` says it is non-empty. If the two helpers disagree, for example by picking different duplicates of `lang`, the rule throws a TypeError on `lang.chars`; that error path is not modelled. `Options` is a map, so `opts` being `null` or `undefined` cannot be represented; the rule throws on the `opts["lang-style"]` read in that case.
- LangStyle.ValidatedStyleGovernsCasing: assumes the engine passes `lint` an options object whose `"lang-style"` entry is the value `validateConfig` accepted. The engine is not part of this model. If it passes the validated value itself (`true`, `false` or `"case"`), `opts["lang-style"]` is always `undefined` and E039 is never reported.
