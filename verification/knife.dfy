/** The helper library the rules call into. Node kind is decided here; the
    attribute lookups, the boolean-attribute list and the language-tag
    classifier are not part of this model and are passed in as functions. */
module Knife {
  import opened Wrappers
  import opened Syntax

  /** The collaborators each rule receives, as uninterpreted total functions:
      - hasNonEmptyAttribute(node, name): the tag has an attribute `name` with a non-empty value;
      - attributeValue(node, name): the value token of that attribute, if any;
      - isBooleanAttribute(name): `name` needs no value;
      - checkLangAttribute(token): 0 valid, 1 invalid subtag, 2 valid but badly cased. */
  datatype Collaborators = Collaborators(
    hasNonEmptyAttribute: (Node, string) -> bool,
    attributeValue: (Node, string) -> Option<Token>,
    isBooleanAttribute: string -> bool,
    checkLangAttribute: Token -> int)

  /** True exactly for element nodes. */
  predicate IsTagNode(node: Node) {
    node.Tag?
  }
}
