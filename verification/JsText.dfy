/** Text as JavaScript sees it: a sequence of UTF-16 code units. */
module JsText {
  type Unit = n: int | 0 <= n < 0x1_0000
  type Text = seq<Unit>

  const LF: Unit := '\n' as int
  const SPACE: Unit := ' ' as int
  const QUOTE: Unit := '"' as int
  const APOSTROPHE: Unit := '\'' as int
  const HYPHEN: Unit := '-' as int
  const UNDERSCORE: Unit := '_' as int
  const BACKSLASH: Unit := '\\' as int

  /** What `\s` matches in a regular expression. */
  predicate IsSpace(u: Unit) {
    0x09 <= u <= 0x0D || u in {SPACE, 0xA0, 0x1680, 0x2028, 0x2029, 0x202F, 0x205F, 0x3000, 0xFEFF}
    || 0x2000 <= u <= 0x200A
  }

  predicate IsDigit(u: Unit) {
    0x30 <= u <= 0x39
  }

  /** `\s` of ECMAScript is its white space (tab, vertical tab, form feed, space,
      no-break space, byte order mark and the space separators of Unicode) and its
      line terminators. */
  lemma SpaceUnits(u: Unit)
    ensures IsSpace(u) <==>
              || u == '\t' as int || u == '\n' as int || u == '\r' as int || u == ' ' as int
              || u == 11 || u == 12 || u == 160 || u == 65279
              || u == 5760 || 8192 <= u <= 8202 || u == 8239 || u == 8287 || u == 12288
              || u == 8232 || u == 8233
  {
  }

  lemma Regroup(a: Text, b: Text, c: Text)
    ensures a + (b + c) == a + b + c
  {
  }
}
