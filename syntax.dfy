/**
 * The syntax tree of a pattern: `struct re` and its six node kinds
 * (re.c:17-39), and the byte type of the C strings the engine reads.
 */
module Syntax {

  /**
   * One byte of a NUL-terminated C string. The terminator is not part of the
   * string: it is the end of the sequence, so a string is a `seq<CChar>` and
   * no byte in it is 0.
   */
  type CChar = c: char | 0 < c as int < 256 witness 'a'

  /**
   * A pattern tree. `Char` is RE_CHAR, `Alt` is RE_ALT (left, right), `Star`,
   * `Plus` and `Optional` are RE_STAR, RE_PLUS and RE_OPTION with their one
   * operand, and `Concat` is RE_CONCAT with its children in order.
   */
  datatype Re =
    | Char(c: CChar)
    | Alt(left: Re, right: Re)
    | Star(re: Re)
    | Plus(re: Re)
    | Optional(re: Re)
    | Concat(res: seq<Re>)
}
