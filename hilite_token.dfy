/**
 * The highlighter's tokens: a half-open byte range of the text and a kind.
 * The kinds are the generic highlighter kinds followed by the C++ ones, in
 * the order the two enumerations list them.
 */
module HiliteToken {

  type Kind = nat

  const WHITESPACE: Kind := 0
  const NEWLINE: Kind := 1
  const LINE_COMMENT: Kind := 2
  const BLOCK_COMMENT: Kind := 3
  const IDENTIFIER: Kind := 4
  const KEYWORD: Kind := 5
  const MODULE_NAME: Kind := 6
  const KNOWN_IDENT_1: Kind := 7
  const KNOWN_IDENT_2: Kind := 8
  const KNOWN_IDENT_3: Kind := 9
  const PUNCTUATOR: Kind := 10
  const NUMBER: Kind := 11
  const CHARACTER: Kind := 12
  const CHAR_ENCODING: Kind := 13
  const CHAR_DELIM: Kind := 14
  const CHAR_UDL: Kind := 15
  const STRING: Kind := 16
  const STRING_ENCODING: Kind := 17
  const STRING_DELIM: Kind := 18
  const STRING_UDL: Kind := 19
  const ESCAPE_SEQUENCE: Kind := 20
  const RAW_STRING: Kind := 21
  const META: Kind := 22
  const META_IDENTIFIER: Kind := 23

  /** The C++ kinds continue the numbering. */
  const DELETED_NEWLINE: Kind := 24
  const LOCAL_HEADER_NAME: Kind := 25
  const SYSTEM_HEADER_NAME: Kind := 26
  const MODULE_DECL: Kind := 27
  const MODULE_EXPORT: Kind := 28
  const MODULE_IMPORT: Kind := 29
  const UNIVERSAL_CHARACTER_NAME: Kind := 30
  const MACRO_NAME: Kind := 31
  const MACRO_ARG_LIST: Kind := 32
  const MACRO_ARG: Kind := 33
  const MACRO_VA_ARGS: Kind := 34
  const MACRO_REPLACEMENT: Kind := 35

  /** `token_t` */
  datatype Token = Token(start: nat, end: nat, kind: Kind)

  /** `token_t::operator<`: by start; at equal starts the longer token first; then by kind. */
  predicate Less(a: Token, b: Token)
  {
    if a.start == b.start then
      if a.end == b.end then a.kind < b.kind else a.end > b.end
    else a.start < b.start
  }

  /** `token_t::operator==`: all three fields equal. */
  predicate Same(a: Token, b: Token)
  {
    a.start == b.start && a.end == b.end && a.kind == b.kind
  }

  /** The order, stated field by field. */
  lemma LessMeaning(a: Token, b: Token)
    ensures a.start < b.start ==> Less(a, b)
    ensures a.start == b.start && a.end > b.end ==> Less(a, b)
    ensures a.start == b.start && a.end == b.end ==> (Less(a, b) <==> a.kind < b.kind)
    ensures Less(a, b) ==> a.start <= b.start
  {
  }

  /** `==` is equality of the tokens. */
  lemma SameIsEquality(a: Token, b: Token)
    ensures Same(a, b) <==> a == b
  {
  }

  /** `<` is a strict total order: exactly one of `a < b`, `a == b`, `b < a` holds. */
  lemma LessIsStrictTotalOrder(a: Token, b: Token, c: Token)
    ensures !Less(a, a)
    ensures Less(a, b) && Less(b, c) ==> Less(a, c)
    ensures Less(a, b) || Same(a, b) || Less(b, a)
    ensures !(Less(a, b) && Less(b, a)) && !(Less(a, b) && Same(a, b))
  {
  }

  /** A sequence in strictly ascending order: sorted, with no equal neighbours. */
  predicate StrictlySorted(ts: seq<Token>)
  {
    forall i, j :: 0 <= i < j < |ts| ==> Less(ts[i], ts[j])
  }
}
