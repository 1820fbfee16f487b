/**
 * The two Node.js library calls the upload filename builders depend on:
 * `Buffer.prototype.toString('hex')` and POSIX `path.extname`.
 */
module NodeRuntime {
  import opened Wrappers

  newtype uint8 = x: int | 0 <= x < 256

  // ---------------------------------------------------------------- hex

  function HexDigit(n: nat): (c: char)
    requires n < 16
  {
    if n < 10 then '0' + n as char else 'a' + (n - 10) as char
  }

  predicate IsLowerHex(c: char) { '0' <= c <= '9' || 'a' <= c <= 'f' }

  function HexValue(c: char): (v: nat)
    requires IsLowerHex(c)
    ensures v < 16 && HexDigit(v) == c
  {
    if c <= '9' then c as int - '0' as int else c as int - 'a' as int + 10
  }

  lemma HexValueOfDigit(n: nat)
    requires n < 16
    ensures IsLowerHex(HexDigit(n)) && HexValue(HexDigit(n)) == n
  {
  }

  /** `buf.toString('hex')`: two lower-case hex digits per byte, high nibble first. */
  function HexEncode(bytes: seq<uint8>): (s: string)
    ensures |s| == 2 * |bytes|
    ensures forall i :: 0 <= i < |s| ==> IsLowerHex(s[i])
  {
    if bytes == [] then []
    else [HexDigit(bytes[0] as int / 16), HexDigit(bytes[0] as int % 16)] + HexEncode(bytes[1..])
  }

  /** The inverse of HexEncode: None when the text is not pairs of lower-case hex digits. */
  function HexDecode(s: string): (r: Option<seq<uint8>>)
    ensures r.Some? ==> 2 * |r.value| == |s|
    decreases |s|
  {
    if s == [] then Some([])
    else if |s| < 2 || !IsLowerHex(s[0]) || !IsLowerHex(s[1]) then None
    else
      match HexDecode(s[2..])
      case None => None
      case Some(rest) => Some([(HexValue(s[0]) * 16 + HexValue(s[1])) as uint8] + rest)
  }

  /** Decoding the hex text of a buffer gives the buffer back. */
  lemma {:induction false} HexRoundTrip(bytes: seq<uint8>)
    ensures HexDecode(HexEncode(bytes)) == Some(bytes)
  {
    if bytes != [] {
      var s := HexEncode(bytes);
      assert s[2..] == HexEncode(bytes[1..]);
      HexRoundTrip(bytes[1..]);
      var hi, lo := bytes[0] as int / 16, bytes[0] as int % 16;
      HexValueOfDigit(hi);
      HexValueOfDigit(lo);
      assert HexValue(s[0]) * 16 + HexValue(s[1]) == bytes[0] as int;
      assert [bytes[0]] + bytes[1..] == bytes;
    }
  }

  /** Distinct buffers have distinct hex texts. */
  lemma HexEncodeInjective(a: seq<uint8>, b: seq<uint8>)
    requires HexEncode(a) == HexEncode(b)
    ensures a == b
  {
    HexRoundTrip(a);
    HexRoundTrip(b);
  }

  // ---------------------------------------------------------------- path.extname

  function TrimTrailingSlashes(p: string): (r: string)
    ensures |r| <= |p| && r == p[..|r|]
    ensures r == [] || r[|r| - 1] != '/'
  {
    if p != [] && p[|p| - 1] == '/' then TrimTrailingSlashes(p[..|p| - 1]) else p
  }

  /** The text after the last '/'. */
  function LastSegment(p: string): (r: string)
    ensures |r| <= |p| && r == p[|p| - |r|..]
    ensures '/' !in r
  {
    if p == [] || p[|p| - 1] == '/' then [] else LastSegment(p[..|p| - 1]) + [p[|p| - 1]]
  }

  /** The index of the last occurrence of `c` in `s`, or -1. */
  function LastIndexOf(s: string, c: char): (k: int)
    ensures -1 <= k < |s|
    ensures k >= 0 ==> s[k] == c && c !in s[k + 1..]
    ensures k == -1 ==> c !in s
  {
    if s == [] then -1
    else if s[|s| - 1] == c then |s| - 1
    else LastIndexOf(s[..|s| - 1], c)
  }

  /**
   * POSIX `path.extname(p)`: from the last '.' of the last path segment (trailing
   * slashes ignored) to its end; empty when the segment has no '.', when its only
   * '.' is its first character, or when the segment is "..".
   */
  function ExtName(p: string): (ext: string)
    ensures ext == [] || (ext[0] == '.' && '.' !in ext[1..])
    ensures '/' !in ext
    ensures |ext| <= |TrimTrailingSlashes(p)|
    ensures ext == TrimTrailingSlashes(p)[|TrimTrailingSlashes(p)| - |ext|..]
  {
    ExtNameOfTrimmed(TrimTrailingSlashes(p))
  }

  /** ExtName once the trailing slashes are gone. */
  function ExtNameOfTrimmed(trimmed: string): (ext: string)
    ensures ext == [] || (ext[0] == '.' && '.' !in ext[1..])
    ensures '/' !in ext
    ensures |ext| <= |trimmed| && ext == trimmed[|trimmed| - |ext|..]
  {
    var part := LastSegment(trimmed);
    var dot := LastIndexOf(part, '.');
    if dot <= 0 || part == ".." then []
    else
      ExtNameSlice(trimmed, part, dot);
      part[dot..]
  }

  lemma ExtNameSlice(trimmed: string, part: string, dot: nat)
    requires |part| <= |trimmed| && part == trimmed[|trimmed| - |part|..] && '/' !in part
    requires dot < |part| && part[dot] == '.' && '.' !in part[dot + 1..]
    ensures var ext := part[dot..];
      ext[0] == '.' && '.' !in ext[1..] && '/' !in ext
      && ext == trimmed[|trimmed| - |ext|..]
  {
    var ext := part[dot..];
    assert ext[1..] == part[dot + 1..];
    assert ext == trimmed[|trimmed| - |part| + dot..];
    assert '/' !in ext by {
      forall i | 0 <= i < |ext| ensures ext[i] != '/' { assert ext[i] == part[dot + i]; }
    }
  }

  /** A simple file name "stem.ext" has extension ".ext". */
  lemma ExtNameOfSimpleName(stem: string, ext: string)
    requires stem != [] && '/' !in stem && '/' !in ext && '.' !in ext
    requires ext != [] || stem != "."
    ensures ExtName(stem + "." + ext) == "." + ext
  {
    var p := stem + "." + ext;
    var dotAt := |stem|;
    assert LastIndexOf(p, '.') == dotAt by {
      assert p[dotAt] == '.' && p[dotAt + 1..] == ext;
      LastIndexAfter(p, '.', dotAt);
    }
    assert p != ".." by {
      assert p[0] == stem[0] && |p| == |stem| + 1 + |ext|;
      assert |p| == 2 ==> stem == [stem[0]] && ext == [];
    }
    assert p[dotAt..] == "." + ext;
    ConcatSlashFree(stem, ext);
    ExtNameOfSegment(p);
  }

  lemma ConcatSlashFree(stem: string, ext: string)
    requires '/' !in stem && '/' !in ext
    ensures '/' !in stem + "." + ext
  {
    var p := stem + "." + ext;
    forall i | 0 <= i < |p| ensures p[i] != '/' {
      if i < |stem| { assert p[i] == stem[i]; }
      else if i > |stem| { assert p[i] == ext[i - |stem| - 1]; }
    }
  }

  /** On a single segment, ExtName is the text from its last '.'. */
  lemma ExtNameOfSegment(p: string)
    requires '/' !in p
    ensures var dot := LastIndexOf(p, '.');
      ExtName(p) == if dot <= 0 || p == ".." then [] else p[dot..]
  {
    if p != [] {
      assert p[|p| - 1] in p;
    }
    assert TrimTrailingSlashes(p) == p;
    SegmentOfSlashFree(p);
  }

  lemma {:induction false} SegmentOfSlashFree(p: string)
    requires '/' !in p
    ensures LastSegment(p) == p
  {
    if p != [] {
      assert p[|p| - 1] in p;
      SegmentOfSlashFree(p[..|p| - 1]);
    }
  }

  lemma LastIndexAfter(s: string, c: char, k: nat)
    requires k < |s| && s[k] == c && c !in s[k + 1..]
    ensures LastIndexOf(s, c) == k
  {
  }

  /** A name without any '.' has no extension. */
  lemma ExtNameWithoutDot(p: string)
    requires '.' !in p
    ensures ExtName(p) == []
  {
    var t := TrimTrailingSlashes(p);
    var part := LastSegment(t);
    assert part == p[|t| - |part|..|t|];
  }
}
