/** Character classes of the HTTP parser (strict mode).

    A byte is a `char`; every function below is total on `char`, so every claim made
    about strings holds in particular for strings of bytes.  Bytes 0x80-0xFF are the
    characters '\U{80}' to '\U{FF}'. */
module HttpChars {
  import opened Numerals

  const CR: char := '\r'
  const LF: char := '\n'
  const SP: char := ' '
  const HT: char := '\t'
  const NUL: char := '\0'

  predicate IsUpper(c: char) { 'A' <= c <= 'Z' }

  /** The macro LOWER: c | 0x20 on a byte. */
  function Lower(c: char): char {
    if c < '\U{20}' || '\U{40}' <= c < '\U{60}' || '\U{80}' <= c < '\U{A0}' || '\U{C0}' <= c < '\U{E0}'
    then (c as int + 32) as char else c
  }

  predicate IsAlpha(c: char) { 'a' <= Lower(c) <= 'z' }

  predicate IsAlphanum(c: char) { IsAlpha(c) || IsNumber(c) }

  predicate IsHex(c: char) { IsNumber(c) || 'a' <= Lower(c) <= 'f' }

  predicate IsMark(c: char) {
    c == '-' || c == '_' || c == '.' || c == '!' || c == '~' || c == '*' || c == '\'' || c == '(' || c == ')'
  }

  predicate IsUserinfoChar(c: char) {
    IsAlphanum(c) || IsMark(c) || c == '%' || c == ';' || c == ':' || c == '&' || c == '=' || c == '+' ||
    c == '$' || c == ','
  }

  predicate IsUrlChar(c: char) { '!' <= c <= '~' && c != '#' && c != '?' }

  predicate IsHostChar(c: char) { IsAlphanum(c) || c == '.' || c == '-' }

  predicate IsHeaderChar(c: char) { c == CR || c == LF || c == HT || (c > '\U{1F}' && c != '\U{7F}') }

  predicate IsSeparator(c: char) {
    c == '(' || c == ')' || c == '<' || c == '>' || c == '@' || c == ',' || c == ';' || c == ':' || c == '\\' ||
    c == '"' || c == '/' || c == '[' || c == ']' || c == '?' || c == '=' || c == '{' || c == '}'
  }

  /** The `tokens` table: NUL for a character that is not a token character, otherwise
      the character with ASCII letters in lower case. */
  function Token(c: char): char {
    if c <= SP || c >= '\U{7F}' || IsSeparator(c) then NUL
    else if IsUpper(c) then (c as int + 32) as char
    else c
  }

  predicate IsToken(c: char) { Token(c) != NUL }

  /** The `unhex` table.  It has 256 entries and 128 initialisers, so every byte from
      0x80 on is read as the digit 0. */
  function Unhex(c: char): int {
    if IsNumber(c) then c as int - '0' as int
    else if 'A' <= c <= 'F' then c as int - 'A' as int + 10
    else if 'a' <= c <= 'f' then c as int - 'a' as int + 10
    else if c < '\U{80}' then -1
    else 0
  }
}
