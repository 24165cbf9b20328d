/**
 * The part of a PostCSS stylesheet tree that the import parser looks at.
 */
module CssAst {
  import opened Wrappers

  /**
   * An `@import` at-rule: its `params`, the `raws.params.raw` text when
   * the parser kept one, `raws.afterName` ("" when absent) and the
   * `{ ... }` block attached to it, if any.
   */
  datatype ImportRule = ImportRule(params: string, rawParams: Option<string>, afterName: string, block: Block)

  /** `atRule.nodes`: absent, or an array holding the children of the block. */
  datatype Block = NoBlock | Block(nodes: seq<Node>)

  /** A node of the tree: a comment, an `@import`, a rule or at-rule with children, or anything else. */
  datatype Node =
    | CommentNode(text: string)
    | ImportAtRule(rule: ImportRule)
    | Container(nodes: seq<Node>)
    | OtherNode
}
