/** The three notions of white space in the program: Go's on characters and on UTF-8
    bytes, and Python's. */
module WhiteSpace {
  import SshConfig
  import Shim
  import opened ClipboardCodec

  /** The UTF-8 form of a character below U+10000, section 3 of RFC 3629. */
  function Utf8(c: char): Bytes
    requires c as int < 0x10000
  {
    var n := c as int;
    if n < 0x80 then [n as Byte]
    else if n < 0x800 then [(0xC0 + n / 64) as Byte, (0x80 + n % 64) as Byte]
    else [(0xE0 + n / 4096) as Byte, (0x80 + n / 64 % 64) as Byte, (0x80 + n % 64) as Byte]
  }

  lemma TwoBytes(n: int, s: Bytes)
    requires 0x80 <= n < 0x800 && |s| >= 2 && s[0] as int == 0xC0 + n / 64 && s[1] as int == 0x80 + n % 64
    ensures SpaceLen(s) == if SshConfig.IsSpace(n as char) then 2 else 0
  {
    assert n == n / 64 * 64 + n % 64;
  }

  lemma ThreeBytes(n: int, high: int, middle: int, low: int, s: Bytes)
    requires 0x800 <= n < 0x10000 && !(0xD800 <= n < 0xE000) && |s| >= 3
    requires n == high * 4096 + middle * 64 + low && 0 <= high < 16 && 0 <= middle < 64 && 0 <= low < 64
    requires s[0] as int == 0xE0 + high && s[1] as int == 0x80 + middle && s[2] as int == 0x80 + low
    ensures SpaceLen(s) == if SshConfig.IsSpace(n as char) then 3 else 0
  {
  }

  /** On bytes the white space characters are exactly those on characters. */
  lemma SameInUtf8(c: char, rest: Bytes)
    requires c as int < 0x10000
    ensures SpaceLen(Utf8(c) + rest) == if SshConfig.IsSpace(c) then |Utf8(c)| else 0
  {
    var n := c as int;
    var s := Utf8(c) + rest;
    if n < 0x80 {
      assert s[0] as int == n;
    } else if n < 0x800 {
      TwoBytes(n, s);
    } else {
      ThreeBytes(n, n / 4096, n / 64 % 64, n % 64, s);
    }
  }

  /** Python counts four control characters more. */
  lemma PythonHasFourMore(c: char)
    ensures Shim.IsPySpace(c) <==> SshConfig.IsSpace(c) || '\U{1C}' <= c <= '\U{1F}'
  {
  }
}
