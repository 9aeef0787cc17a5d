/** Character classes of Lua patterns (src/lj_char.c, src/lib_string.c). */
module LuaChars {
  import opened Bytes

  predicate IsCntrl(c: byte) { c < 32 || c == 127 }
  predicate IsSpace(c: byte) { 9 <= c <= 13 || c == 32 }
  predicate IsDigit(c: byte) { 48 <= c <= 57 }
  predicate IsUpper(c: byte) { 65 <= c <= 90 }
  predicate IsLower(c: byte) { 97 <= c <= 122 }
  predicate IsXDigit(c: byte) { IsDigit(c) || 65 <= c <= 70 || 97 <= c <= 102 }
  predicate IsPunct(c: byte) { 33 <= c <= 47 || 58 <= c <= 64 || 91 <= c <= 96 || 123 <= c <= 126 }
  predicate IsAlpha(c: byte) { IsUpper(c) || IsLower(c) }
  predicate IsAlnum(c: byte) { IsAlpha(c) || IsDigit(c) }
  predicate IsGraph(c: byte) { IsAlnum(c) || IsPunct(c) }

  /** The letters a class name stands for, by its low five bits. */
  predicate NamesClass(n: int) { n in {1, 3, 4, 7, 12, 16, 19, 21, 23, 24} }

  predicate InClass(c: byte, n: int) {
    if n == 1 then IsAlpha(c) else if n == 3 then IsCntrl(c) else if n == 4 then IsDigit(c)
    else if n == 7 then IsGraph(c) else if n == 12 then IsLower(c) else if n == 16 then IsPunct(c)
    else if n == 19 then IsSpace(c) else if n == 21 then IsUpper(c) else if n == 23 then IsAlnum(c)
    else n == 24 && IsXDigit(c)
  }

  /** `match_class`: a lower-case class name, the complement for an upper-case one, or the
      character itself. */
  predicate MatchClass(c: byte, cl: byte) {
    if 64 <= cl < 128 && NamesClass(cl % 32) then (if cl >= 96 then InClass(c, cl % 32) else !InClass(c, cl % 32))
    else if cl == 122 then c == 0
    else if cl == 90 then c != 0
    else cl == c
  }

  /** The classes by name: letters, control characters, digits, graphic, lower case,
      punctuation, space, upper case, alphanumeric, hexadecimal, and `%z`. */
  predicate Named(name: byte) { name in {97, 99, 100, 103, 108, 112, 115, 117, 119, 120, 122} }

  predicate InNamed(c: byte, name: byte) {
    match name
    case 97 => IsAlpha(c)
    case 99 => IsCntrl(c)
    case 100 => IsDigit(c)
    case 103 => IsGraph(c)
    case 108 => IsLower(c)
    case 112 => IsPunct(c)
    case 115 => IsSpace(c)
    case 117 => IsUpper(c)
    case 119 => IsAlnum(c)
    case 120 => IsXDigit(c)
    case _ => c == 0
  }

  /** What `%` and a character stand for: a class, the complement of one, or the character. */
  predicate InClassOf(c: byte, cl: byte) {
    if Named(cl) then InNamed(c, cl)
    else if IsUpper(cl) && Named(cl + 32) then !InNamed(c, cl + 32)
    else c == cl
  }

  /** The test by the low five bits of the name is right. */
  lemma ClassMeaning(c: byte, cl: byte)
    ensures MatchClass(c, cl) <==> InClassOf(c, cl)
  {
    hide IsAlpha, IsCntrl, IsDigit, IsGraph, IsLower, IsPunct, IsSpace, IsAlnum, IsXDigit;
  }

  /** The character is one of the string. */
  predicate OneOf(c: byte, s: string) {
    exists k :: 0 <= k < |s| && s[k] as int == c
  }

  /** The classes by their characters. */
  lemma Alphabet(c: byte)
    ensures IsDigit(c) <==> OneOf(c, "0123456789")
    ensures IsUpper(c) <==> OneOf(c, "ABCDEFGHIJKLMNOPQRSTUVWXYZ")
    ensures IsLower(c) <==> OneOf(c, "abcdefghijklmnopqrstuvwxyz")
    ensures IsXDigit(c) <==> OneOf(c, "0123456789ABCDEFabcdef")
    ensures IsPunct(c) <==> OneOf(c, "!\"#$%&'()*+,-./:;<=>?@[\\]^_`{|}~")
    ensures IsSpace(c) <==> c == 32 || 9 <= c <= 13
    ensures IsCntrl(c) <==> c < 128 && !IsGraph(c) && c != 32
  {
    Digits(c);
    Uppers(c);
    Lowers(c);
    XDigits(c);
    Puncts(c);
  }

  lemma Digits(c: byte)
    ensures IsDigit(c) <==> OneOf(c, "0123456789")
  {
    var s := "0123456789";
    if 48 <= c <= 57 { assert s[c - 48] as int == c; }
  }

  lemma Uppers(c: byte)
    ensures IsUpper(c) <==> OneOf(c, "ABCDEFGHIJKLMNOPQRSTUVWXYZ")
  {
    var s := "ABCDEFGHIJKLMNOPQRSTUVWXYZ";
    if 65 <= c <= 90 { assert s[c - 65] as int == c; }
  }

  lemma Lowers(c: byte)
    ensures IsLower(c) <==> OneOf(c, "abcdefghijklmnopqrstuvwxyz")
  {
    var s := "abcdefghijklmnopqrstuvwxyz";
    if 97 <= c <= 122 { assert s[c - 97] as int == c; }
  }

  lemma XDigits(c: byte)
    ensures IsXDigit(c) <==> OneOf(c, "0123456789ABCDEFabcdef")
  {
    var s := "0123456789ABCDEFabcdef";
    if 48 <= c <= 57 { assert s[c - 48] as int == c; }
    if 65 <= c <= 70 { assert s[c - 55] as int == c; }
    if 97 <= c <= 102 { assert s[c - 81] as int == c; }
  }

  lemma Puncts(c: byte)
    ensures IsPunct(c) <==> OneOf(c, "!\"#$%&'()*+,-./:;<=>?@[\\]^_`{|}~")
  {
    var s := "!\"#$%&'()*+,-./:;<=>?@[\\]^_`{|}~";
    if 33 <= c <= 47 { assert s[c - 33] as int == c; }
    if 58 <= c <= 64 { assert s[c - 43] as int == c; }
    if 91 <= c <= 96 { assert s[c - 69] as int == c; }
    if 123 <= c <= 126 { assert s[c - 95] as int == c; }
  }
}
