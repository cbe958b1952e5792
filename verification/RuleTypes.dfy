/** Tokens, syntax trees and results shared by the stages of the rule compiler. */
module RuleTypes {

  datatype TokenType =
    | TokEof
    | TokIdentifier
    | TokString
    | TokNumber
    | TokOperator
    | TokLogical
    | TokLeftParen
    | TokRightParen
    | TokComma
    | TokLeftBracket
    | TokRightBracket

  datatype Token = Token(kind: TokenType, text: string)

  const EOF_TOKEN := Token(TokEof, "")
  const AND_TOKEN := Token(TokLogical, "AND")
  const OR_TOKEN := Token(TokLogical, "OR")
  const NOT_TOKEN := Token(TokLogical, "NOT")
  const LEFT_PAREN := Token(TokLeftParen, "(")
  const RIGHT_PAREN := Token(TokRightParen, ")")
  const COMMA := Token(TokComma, ",")
  const LEFT_BRACKET := Token(TokLeftBracket, "[")
  const RIGHT_BRACKET := Token(TokRightBracket, "]")

  const OPERATORS := [
    "eq", "neq", "in", "not_in", "contains", "not_contains", "prefix", "suffix",
    "regex", "not_regex", "gt", "lt", "gte", "lte", "exists", "not_exists"]

  predicate IsOperator(word: string) {
    word in OPERATORS
  }

  /** A rule value: nothing, one string, or a list of strings.  The parser stores
      numbers as strings too. */
  datatype Value = NoValue | One(text: string) | Many(texts: seq<string>)

  datatype Connective = Conjunction | Disjunction | Negation | UnknownConnective(word: string)

  /** The syntax tree is as loose as the record it models: nothing in the type
      stops a logical node from missing a child or naming an unknown operator.
      `Other` is a node of any kind that is neither a comparison nor logical. */
  datatype Node =
    | Nil
    | Comparison(field: string, operator: string, value: Value)
    | Logical(connective: Connective, left: Node, right: Node)
    | Other(kind: string)

  function And(left: Node, right: Node): Node {
    Logical(Conjunction, left, right)
  }

  function Or(left: Node, right: Node): Node {
    Logical(Disjunction, left, right)
  }

  function Not(operand: Node): Node {
    Logical(Negation, operand, Nil)
  }

  function UpperChar(c: char): char {
    if 'a' <= c <= 'z' then ((c as int) - 32) as char else c
  }

  /** Upper-casing as far as the keyword comparisons can see: a word that reads as
      an upper-case ASCII keyword differs from it only in ASCII case. */
  function Upper(s: string): (u: string)
    ensures |u| == |s|
  {
    seq(|s|, i requires 0 <= i < |s| => UpperChar(s[i]))
  }
}
