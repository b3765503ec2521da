/** The syntax-tree node model every rule pattern-matches against, the issue
    record rules report, and the dynamically typed values found in options. */
module Syntax {
  import opened Wrappers

  /** Source location attached to every token; never recomputed. */
  datatype Loc = Loc(line: nat, column: nat)

  /** A raw text span: `chars` keeps the original casing. */
  datatype Token = Token(chars: string, loc: Loc)

  /** An attribute: `value` is None when the attribute had no `=value`. */
  datatype Attribute = Attribute(name: Token, value: Option<Token>, loc: Loc)

  /** A node of the parsed document. `close` is None for self-closing, void
      and unclosed tags. Variants other than Tag are opaque to the rules here. */
  datatype Node =
    | Tag(name: string, attributes: seq<Attribute>, open: Token, close: Option<Token>, children: seq<Node>)
    | Text(token: Token)
    | Comment(token: Token)
    | Doctype(token: Token)

  /** The `meta.data` object of an issue, one shape per rule. */
  datatype IssueData =
    | AttributeData(attribute: string)
    | LangData(lang: string)
    | OpenData(open: Token)

  /** What a rule passes to `report`; the engine adds the severity later. */
  datatype Issue = Issue(code: string, position: Loc, data: IssueData)

  /** A JavaScript value as it may appear in a rule's configuration. */
  datatype Value =
    | Bool(b: bool)
    | Str(s: string)
    | Num(n: int)
    | Null
    | Undefined
    | Obj

  /** The options object handed to a rule's `lint`. */
  type Options = map<string, Value>

  /** JavaScript's `typeof` on a configuration value (`typeof null` is "object"). */
  function TypeOf(v: Value): (r: string)
    ensures r == "boolean" <==> v.Bool?
    ensures r == "string" <==> v.Str?
  {
    match v
    case Bool(_) => "boolean"
    case Str(_) => "string"
    case Num(_) => "number"
    case Null => "object"
    case Undefined => "undefined"
    case Obj => "object"
  }
}
