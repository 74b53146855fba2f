/** Characters of the shell's internal strings: one `char` below 256 stands for one byte. */
module Chars {
  datatype Option<+T> = None | Some(value: T)

  /** The control bytes that mark up an expanded word (src/parser.h). */
  const CTLESC: char := '\U{81}'
  const CTLVAR: char := '\U{82}'
  const CTLENDVAR: char := '\U{83}'
  const CTLBACKQ: char := '\U{84}'
  const CTLARI: char := '\U{86}'
  const CTLENDARI: char := '\U{87}'
  const CTLQUOTEMARK: char := '\U{88}'

  predicate IsCtl(c: char) {
    c in {CTLESC, CTLVAR, CTLENDVAR, CTLBACKQ, CTLARI, CTLENDARI, CTLQUOTEMARK}
  }

  /** The value of a byte as a signed C `char`. */
  function Signed(c: char): int {
    if c as int < 128 then c as int else c as int - 256
  }

  predicate IsUpper(c: char) { 'A' <= c <= 'Z' }

  predicate IsLower(c: char) { 'a' <= c <= 'z' }

  predicate IsDigit(c: char) { '0' <= c <= '9' }

  predicate IsInName(c: char) { IsUpper(c) || IsLower(c) || IsDigit(c) || c == '_' }

  /** What `endofname` takes for a name from its start to its end. */
  predicate IsVarName(s: string) { s != [] && !IsDigit(s[0]) && forall c <- s :: IsInName(c) }

  /** C strings are modelled without their terminator; reading at the end yields it. */
  function At(s: string, i: nat): char {
    if i < |s| then s[i] else '\0'
  }

  lemma Assoc(a: string, b: string, c: string)
    ensures a + (b + c) == a + b + c && [] + a == a && a + [] == a
  {
  }
}
