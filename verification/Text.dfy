/** Characters, their UTF-8 bytes, and the white space the palette's input is cleaned of. */
module Text {
  import opened Ordering

  /** The Unicode White_Space property. */
  predicate IsWhitespace(c: char) {
    var u := c as int;
    || 0x09 <= u <= 0x0D || u == 0x20 || u == 0x85 || u == 0xA0 || u == 0x1680
    || 0x2000 <= u <= 0x200A || u == 0x2028 || u == 0x2029 || u == 0x202F || u == 0x205F || u == 0x3000
  }

  /** The Unicode control characters. */
  predicate IsControl(c: char) {
    var u := c as int;
    u <= 0x1F || 0x7F <= u <= 0x9F
  }

  predicate IsBidiControl(c: char) {
    var u := c as int;
    u == 0x061C || u == 0x200E || u == 0x200F || 0x202A <= u <= 0x202E || 0x2066 <= u <= 0x2069
  }

  /** The encoding of one character, section 3 of RFC 3629. */
  function EncodeChar(c: char): (bytes: Bytes)
    ensures 1 <= |bytes| <= 4
    ensures c as int < 0x80 ==> bytes == [c as int]
    ensures c as int >= 0x80 ==> forall i :: 0 <= i < |bytes| ==> bytes[i] >= 0x80
  {
    var u := c as int;
    if u < 0x80 then [u]
    else if u < 0x800 then [0xC0 + u / 0x40, 0x80 + u % 0x40]
    else if u < 0x10000 then [0xE0 + u / 0x1000, 0x80 + u / 0x40 % 0x40, 0x80 + u % 0x40]
    else [0xF0 + u / 0x40000, 0x80 + u / 0x1000 % 0x40, 0x80 + u / 0x40 % 0x40, 0x80 + u % 0x40]
  }

  function Encode(s: string): Bytes {
    if s == [] then [] else EncodeChar(s[0]) + Encode(s[1..])
  }

  lemma {:induction false} EncodeJoins(a: string, b: string)
    ensures Encode(a + b) == Encode(a) + Encode(b)
    decreases |a|
  {
    if a == [] {
      assert a + b == b;
    } else {
      assert (a + b)[1..] == a[1..] + b;
      EncodeJoins(a[1..], b);
    }
  }

  lemma {:induction false} EncodeLength(s: string)
    ensures |s| <= |Encode(s)| <= 4 * |s|
    decreases |s|
  {
    if s != [] {
      EncodeLength(s[1..]);
    }
  }

  const SPACE: Byte := 32

  /** An encoded text contains the byte of a space only where it contains a space. */
  lemma {:induction false} EncodeWithoutSpace(s: string)
    requires ' ' !in s
    ensures SPACE !in Encode(s)
    decreases |s|
  {
    if s != [] {
      EncodeWithoutSpace(s[1..]);
      assert s[0] != ' ' && s[0] as int != 32;
    }
  }

  const NEWLINE: Byte := 10

  function LowerByte(b: Byte): Byte {
    if 65 <= b <= 90 then b + 32 else b
  }

  /** ASCII lower-casing, which leaves all other bytes alone. */
  function Lower(s: Bytes): (r: Bytes)
    ensures |r| == |s| && forall i :: 0 <= i < |s| ==> r[i] == LowerByte(s[i])
  {
    seq(|s|, i requires 0 <= i < |s| => LowerByte(s[i]))
  }

  // ----- trimming and splitting -----

  function TrimStart(s: string): string {
    if s != [] && IsWhitespace(s[0]) then TrimStart(s[1..]) else s
  }

  function TrimEnd(s: string): string {
    if s != [] && IsWhitespace(s[|s| - 1]) then TrimEnd(s[..|s| - 1]) else s
  }

  function Trim(s: string): string {
    TrimEnd(TrimStart(s))
  }

  /** The part of `s` up to its first white space. */
  function FirstWord(s: string): (w: string)
    ensures |w| <= |s|
  {
    if s == [] || IsWhitespace(s[0]) then [] else [s[0]] + FirstWord(s[1..])
  }

  lemma {:induction false} FirstWordShape(s: string)
    ensures FirstWord(s) <= s && (forall i :: 0 <= i < |FirstWord(s)| ==> !IsWhitespace(FirstWord(s)[i]))
    ensures |FirstWord(s)| < |s| ==> IsWhitespace(s[|FirstWord(s)|])
    decreases |s|
  {
    if s != [] && !IsWhitespace(s[0]) {
      FirstWordShape(s[1..]);
    }
  }

  lemma {:induction false} TrimStartShape(s: string)
    ensures |TrimStart(s)| <= |s| && TrimStart(s) == s[|s| - |TrimStart(s)|..]
    ensures TrimStart(s) != [] ==> !IsWhitespace(TrimStart(s)[0])
    ensures forall i :: 0 <= i < |s| - |TrimStart(s)| ==> IsWhitespace(s[i])
    decreases |s|
  {
    if s != [] && IsWhitespace(s[0]) {
      TrimStartShape(s[1..]);
    }
  }

  lemma {:induction false} TrimEndShape(s: string)
    ensures TrimEnd(s) <= s
    ensures TrimEnd(s) != [] ==> !IsWhitespace(TrimEnd(s)[|TrimEnd(s)| - 1])
    ensures forall i :: |TrimEnd(s)| <= i < |s| ==> IsWhitespace(s[i])
    decreases |s|
  {
    if s != [] && IsWhitespace(s[|s| - 1]) {
      TrimEndShape(s[..|s| - 1]);
    }
  }

  /** The words of `s`: its maximal runs without white space. */
  function Words(s: string): seq<string>
    decreases |s|
  {
    TrimStartShape(s);
    var t := TrimStart(s);
    if t == [] then [] else [FirstWord(t)] + Words(t[|FirstWord(t)|..])
  }

  function TotalLength(words: seq<string>): nat {
    if words == [] then 0 else |words[0]| + TotalLength(words[1..])
  }

  /** The words and the separators between them fit into the text. */
  lemma {:induction false} WordsFit(s: string)
    ensures Words(s) != [] ==> TotalLength(Words(s)) + |Words(s)| - 1 <= |TrimStart(s)|
    ensures Words(s) == [] <==> TrimStart(s) == []
    decreases |s|
  {
    TrimStartShape(s);
    var t := TrimStart(s);
    if t != [] {
      FirstWordShape(t);
      var rest := t[|FirstWord(t)|..];
      WordsFit(rest);
      TrimStartShape(rest);
      assert Words(s)[1..] == Words(rest);
    }
  }

  /** `part` occurs in `whole` as a contiguous stretch. */
  predicate Contains<T(==)>(whole: seq<T>, part: seq<T>) {
    exists i :: 0 <= i <= |whole| - |part| && OccursAt(whole, part, i)
  }

  predicate OccursAt<T(==)>(whole: seq<T>, part: seq<T>, i: nat)
    requires i + |part| <= |whole|
  {
    whole[i..i + |part|] == part
  }

  lemma ContainsTransitive<T>(a: seq<T>, b: seq<T>, c: seq<T>)
    requires Contains(a, b) && Contains(b, c)
    ensures Contains(a, c)
  {
    var i :| 0 <= i <= |a| - |b| && OccursAt(a, b, i);
    var j :| 0 <= j <= |b| - |c| && OccursAt(b, c, j);
    forall k | 0 <= k < |c| ensures a[i + j + k] == c[k] {
      assert b[j..j + |c|][k] == c[k] && a[i..i + |b|][j + k] == b[j + k];
    }
    assert OccursAt(a, c, i + j);
  }

  predicate Solid(w: string) {
    w != [] && forall i :: 0 <= i < |w| ==> !IsWhitespace(w[i])
  }

  lemma {:induction false} WordsAreSolidSlices(s: string, k: nat)
    requires k < |Words(s)|
    ensures Solid(Words(s)[k]) && Contains(s, Words(s)[k])
    decreases |s|
  {
    TrimStartShape(s);
    var t := TrimStart(s);
    FirstWordShape(t);
    var w := FirstWord(t);
    var cut := |s| - |t|;
    if k == 0 {
      assert OccursAt(s, w, cut);
    } else {
      var rest := t[|w|..];
      WordsAreSolidSlices(rest, k - 1);
      assert OccursAt(s, rest, cut + |w|);
      ContainsTransitive(s, rest, Words(rest)[k - 1]);
    }
  }

  lemma TrimShape(s: string) returns (from: nat, to: nat)
    ensures from <= to <= |s| && Trim(s) == s[from..to]
    ensures forall i :: 0 <= i < |s| && !(from <= i < to) ==> IsWhitespace(s[i])
    ensures Trim(s) != [] ==> !IsWhitespace(Trim(s)[0]) && !IsWhitespace(Trim(s)[|Trim(s)| - 1])
  {
    TrimStartShape(s);
    TrimEndShape(TrimStart(s));
    from := |s| - |TrimStart(s)|;
    to := from + |Trim(s)|;
    assert TrimStart(s) == s[from..];
    forall i | to <= i < |s| ensures IsWhitespace(s[i]) {
      assert TrimStart(s)[i - from] == s[i];
    }
  }

  lemma SliceOfSlice<T>(s: seq<T>, from: nat, to: nat, i: nat, j: nat)
    requires from <= to <= |s| && i <= j <= to - from
    ensures s[from..to][i..j] == s[from + i..from + j]
  {
    var a, b := s[from..to][i..j], s[from + i..from + j];
    forall k | 0 <= k < |a| ensures a[k] == b[k] {
      assert a[k] == s[from..to][i + k] == s[from + i + k];
    }
    assert a == b;
  }

  /** A stretch of text without white space survives trimming. */
  lemma SolidSurvivesTrim(s: string, w: string)
    requires Solid(w) && Contains(s, w)
    ensures Contains(Trim(s), w)
  {
    var from, to := TrimShape(s);
    var i :| 0 <= i <= |s| - |w| && OccursAt(s, w, i);
    assert w[0] == s[i..i + |w|][0] == s[i] && w[|w| - 1] == s[i..i + |w|][|w| - 1] == s[i + |w| - 1];
    assert from <= i && i + |w| <= to;
    SliceOfSlice(s, from, to, i - from, i - from + |w|);
    assert OccursAt(Trim(s), w, i - from);
  }

  lemma TrimOfTrimmed(s: string)
    requires s == [] || (!IsWhitespace(s[0]) && !IsWhitespace(s[|s| - 1]))
    ensures Trim(s) == s
  {
  }

  lemma TrimIsIdempotent(s: string)
    ensures Trim(Trim(s)) == Trim(s)
  {
    var from, to := TrimShape(s);
    TrimOfTrimmed(Trim(s));
  }

  /** A text without white space is its own trim. */
  lemma SolidIsTrimmed(w: string)
    requires Solid(w)
    ensures Trim(w) == w
  {
    TrimOfTrimmed(w);
  }

  lemma OccursBetween<T>(a: seq<T>, part: seq<T>, b: seq<T>)
    ensures Contains(a + (part + b), part)
  {
    assert OccursAt(a + (part + b), part, |a|);
  }

  lemma EncodedSliceOccurs(s: string, w: string)
    requires Contains(s, w)
    ensures Contains(Encode(s), Encode(w))
  {
    var i :| 0 <= i <= |s| - |w| && OccursAt(s, w, i);
    var a, b := s[..i], s[i + |w|..];
    assert s == a + (w + b);
    EncodeJoins(a, w + b);
    EncodeJoins(w, b);
    OccursBetween(Encode(a), Encode(w), Encode(b));
  }

  lemma LowerSliceOccurs(s: Bytes, w: Bytes)
    requires Contains(s, w)
    ensures Contains(Lower(s), Lower(w))
  {
    var i :| 0 <= i <= |s| - |w| && OccursAt(s, w, i);
    forall k | 0 <= k < |w| ensures Lower(s)[i + k] == Lower(w)[k] {
      assert s[i..i + |w|][k] == w[k];
    }
    assert OccursAt(Lower(s), Lower(w), i);
  }
}
