/**
 * Character classes of the "C" locale, as the XML reader and the number
 * parsers of the loader use them, and the small Option type shared by the
 * modules of this model.
 */
module Chars {

  datatype Option<T> = None | Some(value: T)

  /** `std::isspace` in the "C" locale: space, tab, newline, vertical tab, form feed, carriage return. */
  predicate IsSpace(c: char)
  {
    c == ' ' || c == '\t' || c == '\n' || c == '\U{000B}' || c == '\U{000C}' || c == '\r'
  }

  predicate IsDigit(c: char)
  {
    '0' <= c <= '9'
  }

  /** `std::isalnum` in the "C" locale. */
  predicate IsAlnum(c: char)
  {
    IsDigit(c) || 'a' <= c <= 'z' || 'A' <= c <= 'Z'
  }

  /** The characters a tag or attribute name may consist of: letters, digits, ':', '_' and '-'. */
  predicate IsNameChar(c: char)
  {
    IsAlnum(c) || c == ':' || c == '_' || c == '-'
  }

  predicate AllSpace(s: seq<char>)
  {
    forall i :: 0 <= i < |s| ==> IsSpace(s[i])
  }
}
