/** Blank text, as Python's `str.strip` sees it. */
module Texts {
  /** The characters `strip` removes: `str.isspace` of every code point. */
  predicate IsSpace(c: char) {
    var p := c as int;
    || 0x09 <= p <= 0x0D || 0x1C <= p <= 0x20
    || p in {0x85, 0xA0, 0x1680, 0x2028, 0x2029, 0x202F, 0x205F, 0x3000}
    || 0x2000 <= p <= 0x200A
  }

  predicate IsBlank(s: string) {
    forall i :: 0 <= i < |s| ==> IsSpace(s[i])
  }

  /** The 29 characters, one by one. */
  lemma SpacesListed(c: char)
    ensures IsSpace(c) <==> c as int in {
              9, 10, 11, 12, 13, 28, 29, 30, 31, 32, 133, 160, 5760, 8192, 8193, 8194, 8195, 8196, 8197, 8198,
              8199, 8200, 8201, 8202, 8232, 8233, 8239, 8287, 12288}
  {}
}
