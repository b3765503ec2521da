/** Rule `attr-req-value`: every attribute of a tag must carry a non-empty
    value unless it is a boolean attribute; placeholder attributes are skipped. */
module AttrReqValue {
  import opened Wrappers
  import opened Syntax
  import opened Chars
  import opened Knife

  const RuleName: string := "attr-req-value"
  const Code: string := "E006"

  /** The lowercased name under which an attribute is looked up and reported. */
  function LowerName(a: Attribute): string {
    ToLower(a.name.chars)
  }

  /** An attribute standing in for ignored text. */
  predicate IsSentinel(a: Attribute) {
    IsPlaceholder(a.name.chars)
  }

  /** The reporting condition for one (non-placeholder) attribute. */
  predicate LacksValue(k: Collaborators, node: Node, a: Attribute) {
    !k.hasNonEmptyAttribute(node, LowerName(a)) && !k.isBooleanAttribute(LowerName(a))
  }

  /** The issue reported for an attribute that lacks its value. */
  function IssueFor(a: Attribute): Issue {
    Issue(Code, a.loc, AttributeData(LowerName(a)))
  }

  /** The `filter` step: drops placeholder attributes. */
  function DropSentinels(attrs: seq<Attribute>): (r: seq<Attribute>)
    ensures |r| <= |attrs|
    ensures forall a :: a in r <==> a in attrs && !IsSentinel(a)
  {
    if attrs == [] then []
    else
      assert forall a :: a in attrs <==> a == attrs[0] || a in attrs[1..];
      (if IsSentinel(attrs[0]) then [] else [attrs[0]]) + DropSentinels(attrs[1..])
  }

  /** The filter distributes over concatenation, so it keeps the surviving
      attributes in their order and with their repetitions. */
  lemma {:induction false} DropSentinelsAppend(xs: seq<Attribute>, ys: seq<Attribute>)
    ensures DropSentinels(xs + ys) == DropSentinels(xs) + DropSentinels(ys)
  {
    if xs == [] {
      assert xs + ys == ys;
    } else {
      assert (xs + ys)[1..] == xs[1..] + ys;
      DropSentinelsAppend(xs[1..], ys);
    }
  }

  /** `issue` is the report of some attribute of `attrs` that lacks a value. */
  predicate ReportedFor(k: Collaborators, node: Node, attrs: seq<Attribute>, issue: Issue) {
    exists a :: a in attrs && LacksValue(k, node, a) && issue == IssueFor(a)
  }

  /** The `forEach` step: one report per attribute that lacks a value, in order. */
  function ReportEach(k: Collaborators, node: Node, attrs: seq<Attribute>): (r: seq<Issue>)
    ensures |r| <= |attrs|
    ensures forall j :: 0 <= j < |r| ==> ReportedFor(k, node, attrs, r[j])
  {
    if attrs == [] then []
    else
      var head := if LacksValue(k, node, attrs[0]) then [IssueFor(attrs[0])] else [];
      var tail := ReportEach(k, node, attrs[1..]);
      var r := head + tail;
      assert forall j :: 0 <= j < |r| ==> ReportedFor(k, node, attrs, r[j]) by {
        forall j | 0 <= j < |r|
          ensures ReportedFor(k, node, attrs, r[j])
        {
          if j < |head| {
            assert r[j] == IssueFor(attrs[0]) && attrs[0] in attrs;
          } else {
            assert r[j] == tail[j - |head|];
            assert ReportedFor(k, node, attrs[1..], tail[j - |head|]);
            var a :| a in attrs[1..] && LacksValue(k, node, a) && r[j] == IssueFor(a);
            assert a in attrs;
          }
        }
      }
      r
  }

  /** `issue` is the report of some non-placeholder attribute of `attrs` that lacks a value. */
  predicate Explained(k: Collaborators, node: Node, attrs: seq<Attribute>, issue: Issue) {
    exists a :: a in attrs && !IsSentinel(a) && LacksValue(k, node, a) && issue == IssueFor(a)
  }

  /** The rule's `lint`: nothing for non-tags; otherwise the filtered
      attributes are reported one by one. The options are not read. */
  function Lint(k: Collaborators, node: Node, opts: Options): (r: seq<Issue>)
    ensures !IsTagNode(node) ==> r == []
    ensures IsTagNode(node) ==> |r| <= |DropSentinels(node.attributes)|
    ensures IsTagNode(node) ==> forall j :: 0 <= j < |r| ==> Explained(k, node, node.attributes, r[j])
  {
    if !IsTagNode(node) then []
    else
      var kept := DropSentinels(node.attributes);
      var issues := ReportEach(k, node, kept);
      assert forall j :: 0 <= j < |issues| ==> Explained(k, node, node.attributes, issues[j]) by {
        forall j | 0 <= j < |issues|
          ensures Explained(k, node, node.attributes, issues[j])
        {
          assert ReportedFor(k, node, kept, issues[j]);
          var a :| a in kept && LacksValue(k, node, a) && issues[j] == IssueFor(a);
          assert a in node.attributes && !IsSentinel(a);
        }
      }
      issues
  }

  /** What one attribute contributes on its own, judged in isolation. */
  function AttributeIssues(k: Collaborators, node: Node, a: Attribute): (r: seq<Issue>)
    ensures |r| <= 1
    ensures r != [] <==> !IsSentinel(a) && LacksValue(k, node, a)
    ensures forall j :: 0 <= j < |r| ==> r[j].code == Code && r[j].position == a.loc && r[j].data == AttributeData(LowerName(a))
  {
    if !IsSentinel(a) && LacksValue(k, node, a) then [IssueFor(a)] else []
  }

  /** Reference definition: each attribute's contribution, concatenated in
      attribute order, in one pass. */
  function Expected(k: Collaborators, node: Node, attrs: seq<Attribute>): seq<Issue> {
    if attrs == [] then [] else AttributeIssues(k, node, attrs[0]) + Expected(k, node, attrs[1..])
  }

  lemma {:induction false} ExpectedAppend(k: Collaborators, node: Node, xs: seq<Attribute>, ys: seq<Attribute>)
    ensures Expected(k, node, xs + ys) == Expected(k, node, xs) + Expected(k, node, ys)
  {
    if xs != [] {
      assert (xs + ys)[1..] == xs[1..] + ys;
      ExpectedAppend(k, node, xs[1..], ys);
    } else {
      assert xs + ys == ys;
    }
  }

  /** On attributes that are not placeholders, the `forEach` step reports
      each attribute's own verdict, once, in attribute order. */
  lemma {:induction false} ReportEachIsExpected(k: Collaborators, node: Node, xs: seq<Attribute>)
    requires forall a :: a in xs ==> !IsSentinel(a)
    ensures ReportEach(k, node, xs) == Expected(k, node, xs)
  {
    if xs != [] {
      assert xs[0] in xs;
      assert forall a :: a in xs[1..] ==> a in xs;
      ReportEachIsExpected(k, node, xs[1..]);
    }
  }

  /** Filtering first and reporting afterwards equals the one-pass reference. */
  lemma {:induction false} FilterThenReport(k: Collaborators, node: Node, attrs: seq<Attribute>)
    ensures ReportEach(k, node, DropSentinels(attrs)) == Expected(k, node, attrs)
  {
    if attrs != [] {
      FilterThenReport(k, node, attrs[1..]);
      var rest := DropSentinels(attrs[1..]);
      if !IsSentinel(attrs[0]) {
        assert DropSentinels(attrs) == [attrs[0]] + rest;
        assert ([attrs[0]] + rest)[1..] == rest;
      } else {
        assert DropSentinels(attrs) == rest;
        assert AttributeIssues(k, node, attrs[0]) == [];
      }
    }
  }

  /** The lint of a tag is the one-pass reference over its attributes. */
  lemma LintIsExpected(k: Collaborators, node: Node, opts: Options)
    requires IsTagNode(node)
    ensures Lint(k, node, opts) == Expected(k, node, node.attributes)
  {
    FilterThenReport(k, node, node.attributes);
  }

  /** Attribute `i` contributes exactly its own verdict, at its own place in
      the output: after the issues of the attributes before it and before
      those of the attributes after it. */
  lemma AttributeVerdict(k: Collaborators, node: Node, opts: Options, i: int)
    requires IsTagNode(node) && 0 <= i < |node.attributes|
    ensures Lint(k, node, opts) ==
      Expected(k, node, node.attributes[..i])
      + AttributeIssues(k, node, node.attributes[i])
      + Expected(k, node, node.attributes[i + 1..])
  {
    var attrs := node.attributes;
    LintIsExpected(k, node, opts);
    assert attrs == attrs[..i] + attrs[i..];
    ExpectedAppend(k, node, attrs[..i], attrs[i..]);
    assert attrs[i..][1..] == attrs[i + 1..];
  }

  /** Every non-placeholder attribute that lacks a value is reported. */
  lemma MissingValueReported(k: Collaborators, node: Node, opts: Options, i: int)
    requires IsTagNode(node) && 0 <= i < |node.attributes|
    requires !IsSentinel(node.attributes[i]) && LacksValue(k, node, node.attributes[i])
    ensures IssueFor(node.attributes[i]) in Lint(k, node, opts)
  {
    AttributeVerdict(k, node, opts, i);
    var pre := Expected(k, node, node.attributes[..i]);
    assert Lint(k, node, opts)[|pre|] == IssueFor(node.attributes[i]);
  }

  /** Every reported issue is an E006 naming a lowercased, non-placeholder,
      non-boolean attribute name for which no non-empty attribute exists. */
  lemma ReportedNamesLackValues(k: Collaborators, node: Node, opts: Options)
    ensures forall j :: 0 <= j < |Lint(k, node, opts)| ==>
      var issue := Lint(k, node, opts)[j];
      && issue.code == Code
      && issue.data.AttributeData?
      && !IsPlaceholder(issue.data.attribute)
      && (forall i :: 0 <= i < |issue.data.attribute| ==> !IsUpperAscii(issue.data.attribute[i]))
      && !k.isBooleanAttribute(issue.data.attribute)
      && !k.hasNonEmptyAttribute(node, issue.data.attribute)
  {
    var r := Lint(k, node, opts);
    forall j | 0 <= j < |r|
      ensures !IsPlaceholder(r[j].data.attribute)
      ensures forall i :: 0 <= i < |r[j].data.attribute| ==> !IsUpperAscii(r[j].data.attribute[i])
    {
      assert Explained(k, node, node.attributes, r[j]);
      var a :| a in node.attributes && !IsSentinel(a) && LacksValue(k, node, a) && r[j] == IssueFor(a);
      PlaceholderUnderLower(a.name.chars);
    }
  }

  /** A boolean attribute is never reported, whatever its value. */
  lemma BooleanAttributeNeverReported(k: Collaborators, node: Node, opts: Options, a: Attribute)
    requires k.isBooleanAttribute(LowerName(a))
    ensures IssueFor(a) !in Lint(k, node, opts)
  {
    ReportedNamesLackValues(k, node, opts);
  }

  /** The options argument has no influence on the output. */
  lemma OptionsIgnored(k: Collaborators, node: Node, o1: Options, o2: Options)
    ensures Lint(k, node, o1) == Lint(k, node, o2)
  {
  }
}
