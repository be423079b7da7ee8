/** The encoding of job ids as directory names, in the manner of systemd unit names. */
module UnitNames {
  import opened Collections

  type Byte = c: char | (c as int) < 256 witness 'a'
  type Bytes = seq<Byte>

  predicate IsAlnum(c: Byte) {
    IsDigit(c) || 'a' <= c <= 'z' || 'A' <= c <= 'Z'
  }

  /** The characters that stand for themselves. */
  predicate Plain(c: Byte) {
    IsAlnum(c) || c == '_' || c == '.'
  }

  predicate IsHex(c: Byte) {
    IsDigit(c) || 'a' <= c <= 'f'
  }

  function HexDigit(n: nat): (c: Byte)
    requires n < 16
    ensures IsHex(c) && HexValue(c) == n
  {
    if n < 10 then '0' + n as char else 'a' + (n - 10) as char
  }

  function HexValue(c: Byte): (n: nat)
    requires IsHex(c)
    ensures n < 16
  {
    if IsDigit(c) then (c - '0') as nat else (c - 'a') as nat + 10
  }

  // ---------- escaping ----------

  function HexEscape(c: Byte): Bytes {
    ['\\', 'x', HexDigit(c as int / 16), HexDigit(c as int % 16)]
  }

  /** The escape of the character at position `i`; only a leading dot depends on the position. */
  function EscapeChar(i: nat, c: Byte): Bytes {
    if i < 1 && c == '.' then HexEscape(c)
    else if Plain(c) then [c]
    else if c == '/' then ['-']
    else HexEscape(c)
  }

  function EscapedFrom(s: Bytes, i: nat): Bytes {
    if s == [] then [] else EscapeChar(i, s[0]) + EscapedFrom(s[1..], i + 1)
  }

  function Escaped(s: Bytes): Bytes {
    EscapedFrom(s, 0)
  }

  lemma EscapedSnoc(s: Bytes, i: nat, c: Byte)
    ensures EscapedFrom(s + [c], i) == EscapedFrom(s, i) + EscapeChar(i + |s|, c)
  {
    if s == [] {
      assert EscapedFrom([c][1..], i + 1) == [];
    } else {
      assert (s + [c])[1..] == s[1..] + [c];
      EscapedSnoc(s[1..], i + 1, c);
    }
  }

  method Escape(buf: Bytes) returns (ret: Bytes)
    ensures ret == Escaped(buf)
  {
    ret := [];
    var i := 0;
    while i < |buf|
      invariant 0 <= i <= |buf| && ret == Escaped(buf[..i])
    {
      var c := buf[i];
      assert buf[..i + 1] == buf[..i] + [c];
      EscapedSnoc(buf[..i], 0, c);
      i := i + 1;
      if i - 1 < 1 && c == '.' {
        ret := ret + HexEscape(c);
        continue;
      }
      if IsAlnum(c) || c == '_' || c == '.' {
        ret := ret + [c];
      } else if c == '/' {
        ret := ret + ['-'];
      } else {
        ret := ret + HexEscape(c);
      }
    }
    assert buf[..i] == buf;
  }

  // ---------- unescaping ----------

  function FromHex(h: Byte, l: Byte): Byte
    requires IsHex(h) && IsHex(l)
  {
    (HexValue(h) * 16 + HexValue(l)) as char
  }

  predicate StartsEscape(s: Bytes) {
    |s| > 3 && s[0] == '\\' && s[1] == 'x' && IsHex(s[2]) && IsHex(s[3])
  }

  function Prepend(a: Bytes, r: Option<Bytes>): Option<Bytes> {
    match r
    case None => None
    case Some(b) => Some(a + b)
  }

  /** The decoded text, or nothing where the source raises ValueError. */
  function Unescaped(s: Bytes): Option<Bytes> {
    if s == [] then Some([])
    else if StartsEscape(s) then Prepend([FromHex(s[2], s[3])], Unescaped(s[4..]))
    else if s[0] == '-' then Prepend(['/'], Unescaped(s[1..]))
    else if Plain(s[0]) then Prepend([s[0]], Unescaped(s[1..]))
    else None
  }

  method Unescape(buf: Bytes) returns (r: Option<Bytes>)
    ensures r == Unescaped(buf)
  {
    var ret: Bytes := [];
    var i := 0;
    assert buf[0..] == buf;
    PrependNothing(Unescaped(buf));
    while i < |buf|
      invariant 0 <= i <= |buf|
      invariant Unescaped(buf) == Prepend(ret, Unescaped(buf[i..]))
    {
      ghost var rest := buf[i..];
      if |buf| - i > 3 && buf[i] == '\\' && buf[i + 1] == 'x' && IsHex(buf[i + 2]) && IsHex(buf[i + 3]) {
        assert rest[4..] == buf[i + 4..];
        PrependTwice(ret, [FromHex(buf[i + 2], buf[i + 3])], Unescaped(buf[i + 4..]));
        ret := ret + [FromHex(buf[i + 2], buf[i + 3])];
        i := i + 4;
        continue;
      }
      assert rest[1..] == buf[i + 1..];
      if buf[i] == '-' {
        PrependTwice(ret, ['/'], Unescaped(buf[i + 1..]));
        ret := ret + ['/'];
      } else if IsAlnum(buf[i]) || buf[i] == '_' || buf[i] == '.' {
        PrependTwice(ret, [buf[i]], Unescaped(buf[i + 1..]));
        ret := ret + [buf[i]];
      } else {
        return None;
      }
      i := i + 1;
    }
    assert buf[i..] == [] && ret + [] == ret;
    return Some(ret);
  }

  /** Decoding raises at the first character that an escape cannot contain, and at a backslash without a code. */
  lemma {:induction false} UnescapeFails(a: Bytes, c: Byte, rest: Bytes)
    requires forall k :: 0 <= k < |a| ==> IsAlnum(a[k]) || a[k] == '_' || a[k] == '.' || a[k] == '-'
    ensures !(IsAlnum(c) || c == '_' || c == '.' || c == '-' || c == '\\') ==> Unescaped(a + [c] + rest).None?
    ensures c == '\\' && !(|rest| >= 3 && rest[0] == 'x' && IsHex(rest[1]) && IsHex(rest[2])) ==> Unescaped(a + [c] + rest).None?
    ensures Unescaped(a).Some?
  {
    var s := a + [c] + rest;
    if a == [] {
      assert s == [c] + rest && s[1..] == rest;
    } else {
      assert s[0] == a[0] && s[1..] == a[1..] + [c] + rest;
      UnescapeFails(a[1..], c, rest);
    }
  }

  lemma PrependNothing(r: Option<Bytes>)
    ensures Prepend([], r) == r
  {
    if r.Some? {
      assert [] + r.value == r.value;
    }
  }

  lemma PrependTwice(a: Bytes, b: Bytes, r: Option<Bytes>)
    ensures Prepend(a, Prepend(b, r)) == Prepend(a + b, r)
  {
    if r.Some? {
      assert a + (b + r.value) == a + b + r.value;
    }
  }

  // ---------- round trips ----------

  lemma {:induction false} UnescapeOne(i: nat, c: Byte, rest: Bytes)
    ensures Unescaped(EscapeChar(i, c) + rest) == Prepend([c], Unescaped(rest))
  {
    var e := EscapeChar(i, c);
    var s := e + rest;
    if |e| == 4 {
      assert s[4..] == rest;
      assert s[..4] == HexEscape(c);
      assert s[2] == HexDigit(c as int / 16) && s[3] == HexDigit(c as int % 16);
      assert StartsEscape(s) && FromHex(s[2], s[3]) == c;
    } else {
      assert s[1..] == rest;
    }
  }

  lemma {:induction false} RoundTripFrom(s: Bytes, i: nat)
    ensures Unescaped(EscapedFrom(s, i)) == Some(s)
  {
    if s != [] {
      RoundTripFrom(s[1..], i + 1);
      UnescapeOne(i, s[0], EscapedFrom(s[1..], i + 1));
      assert [s[0]] + s[1..] == s;
    }
  }

  /** Decoding undoes encoding for every byte string, so the encoding is injective. */
  lemma EscapeRoundTrip(s: Bytes)
    ensures Unescaped(Escaped(s)) == Some(s)
  {
    RoundTripFrom(s, 0);
  }

  lemma EscapeInjective(s: Bytes, t: Bytes)
    requires Escaped(s) == Escaped(t)
    ensures s == t
  {
    EscapeRoundTrip(s);
    EscapeRoundTrip(t);
  }

  /** The characters of an encoded text. */
  predicate UnitChar(c: Byte) {
    Plain(c) || c == '-' || c == '\\'
  }

  lemma {:induction false} EscapedChars(s: Bytes, i: nat)
    ensures forall c :: c in EscapedFrom(s, i) ==> UnitChar(c)
    ensures i == 0 && s != [] ==> EscapedFrom(s, i) != [] && EscapedFrom(s, i)[0] != '.'
  {
    if s != [] {
      EscapedChars(s[1..], i + 1);
      forall c | c in EscapeChar(i, s[0]) ensures UnitChar(c) {
      }
    }
  }

  /** Letters, digits, underscores and dots stand for themselves, but for a dot in front. */
  lemma {:induction false} PlainStays(s: Bytes, i: nat)
    requires forall k :: 0 <= k < |s| ==>
      '0' <= s[k] <= '9' || 'a' <= s[k] <= 'z' || 'A' <= s[k] <= 'Z' || s[k] == '_' || s[k] == '.'
    requires i == 0 && s != [] ==> s[0] != '.'
    ensures EscapedFrom(s, i) == s
  {
    if s != [] {
      PlainStays(s[1..], i + 1);
      assert [s[0]] + s[1..] == s;
    }
  }

  /** A slash becomes a dash; any other character, and a dot in front, is written with its code in hexadecimal. */
  lemma EscapeIs(s: Bytes, c: Byte)
    ensures c == '/' ==> Escaped(s + [c]) == Escaped(s) + ['-']
    ensures (s == [] && c == '.') || !('0' <= c <= '9' || 'a' <= c <= 'z' || 'A' <= c <= 'Z' || c in "_./") ==>
      exists h: Byte, l: Byte :: IsHex(h) && IsHex(l) && c as int == 16 * HexValue(h) + HexValue(l)
        && Escaped(s + [c]) == Escaped(s) + ['\\', 'x', h, l]
  {
    EscapedSnoc(s, 0, c);
    if (s == [] && c == '.') || !('0' <= c <= '9' || 'a' <= c <= 'z' || 'A' <= c <= 'Z' || c in "_./") {
      var h, l := HexDigit(c as int / 16), HexDigit(c as int % 16);
      assert c != '_' && c != '/' && (c == '.' ==> s == []);
      assert Escaped(s + [c]) == Escaped(s) + ['\\', 'x', h, l];
    }
  }

  /** The brackets of an array job's id have the codes 5b and 5d. */
  lemma BracketCodes()
    ensures HexEscape('[') == ['\\', 'x', '5', 'b'] && HexEscape(']') == ['\\', 'x', '5', 'd']
    ensures Escaped(['7', '[']) == ['7'] + HexEscape('[')
  {
    EscapedSnoc(['7'], 0, '[');
    assert ['7'] + ['['] == ['7', '['];
    PlainStays(['7'], 0);
  }

  // ---------- directory names ----------

  /** The naming scheme: plain ids before systemd 205, prefixed and escaped slices since. */
  datatype Naming = Naming(slices: bool, prefix: Bytes) {
    /** No character of the prefix has a meaning in patterns or escapes. */
    predicate Valid() {
      forall i :: 0 <= i < |prefix| ==> IsAlnum(prefix[i]) || prefix[i] == '_'
    }
  }

  const SLICE: Bytes := ['.', 's', 'l', 'i', 'c', 'e']
  const ORPHAN: Bytes := ['.', 'o', 'r', 'p', 'h', 'a', 'n']

  function JobDir(n: Naming, jobid: Bytes): Bytes {
    if !n.slices then jobid else n.prefix + ['-'] + Escaped(jobid) + SLICE
  }

  predicate EndsWith(s: Bytes, tail: Bytes) {
    |s| >= |tail| && s[|s| - |tail|..] == tail
  }

  predicate StartsWith(s: Bytes, head: Bytes) {
    head <= s
  }

  /**
   * The substitution of the pattern prefix-(.*).slice$ in a one-line name: the leftmost occurrence of the
   * prefix and a dash, followed up to the end by a text that ends in any character and "slice".
   */
  function Strip(n: Naming, name: Bytes): Bytes {
    StripFrom(n, name, 0)
  }

  function StripFrom(n: Naming, name: Bytes, p: nat): Bytes
    requires p <= |name|
    decreases |name| - p
  {
    if MatchesAt(n, name, p) then name[..p] + name[p + |n.prefix| + 1..|name| - |SLICE|]
    else if p == |name| then name
    else StripFrom(n, name, p + 1)
  }

  predicate MatchesAt(n: Naming, name: Bytes, p: nat)
    requires p <= |name|
  {
    && StartsWith(name[p..], n.prefix + ['-'])
    && |name| - p >= |n.prefix| + 1 + |SLICE|
    && EndsWith(name, SLICE[1..])
  }

  /** The job id that a directory name stands for; nothing where decoding raises ValueError. */
  function DirJob(n: Naming, name: Bytes): Option<Bytes> {
    if !n.slices then Some(name) else Unescaped(Strip(n, name))
  }

  /** From job id to directory name and back is the identity. */
  lemma DirRoundTrip(n: Naming, jobid: Bytes)
    requires n.Valid()
    ensures DirJob(n, JobDir(n, jobid)) == Some(jobid)
  {
    if n.slices {
      var name := JobDir(n, jobid);
      var head := n.prefix + ['-'];
      assert name == head + (Escaped(jobid) + SLICE);
      assert name[0..] == name;
      assert name[|name| - 5..] == SLICE[1..];
      assert MatchesAt(n, name, 0);
      assert name[..0] + name[|head|..|name| - |SLICE|] == Escaped(jobid);
      EscapeRoundTrip(jobid);
    }
  }

  lemma DirInjective(n: Naming, a: Bytes, b: Bytes)
    requires n.Valid() && JobDir(n, a) == JobDir(n, b)
    ensures a == b
  {
    DirRoundTrip(n, a);
    DirRoundTrip(n, b);
  }

  /** The id is what stands between the first prefix with its dash and the extension; text before it stays. */
  lemma {:induction false} StripIs(n: Naming, a: Bytes, b: Bytes, dot: Byte, p: nat)
    requires p <= |a|
    requires var name := a + (n.prefix + ['-']) + b + [dot] + SLICE[1..];
      forall k :: p <= k < |a| ==> !StartsWith(name[k..], n.prefix + ['-'])
    ensures StripFrom(n, a + (n.prefix + ['-']) + b + [dot] + SLICE[1..], p) == a + b
    decreases |a| - p
  {
    var head := n.prefix + ['-'];
    var name := a + head + b + [dot] + SLICE[1..];
    if p < |a| {
      StripIs(n, a, b, dot, p + 1);
    } else {
      assert name[p..] == head + (b + [dot] + SLICE[1..]);
      assert name[|name| - 5..] == SLICE[1..];
      assert name[..p] + name[p + |head|..|name| - |SLICE|] == a + b;
    }
  }

  // ---------- glob patterns ----------

  /** The names that the glob pattern for job directories selects. */
  predicate IsJobName(n: Naming, name: Bytes) {
    var head := if n.slices then Escaped(n.prefix) + ['-'] else [];
    StartsWith(name, head) && |name| > |head| && IsDigit(name[|head|])
  }

  /** The names that the pattern with the orphan extension selects. */
  predicate IsOrphanName(n: Naming, name: Bytes) {
    var head := if n.slices then Escaped(n.prefix) + ['-'] else [];
    IsJobName(n, name) && EndsWith(name, ORPHAN) && |name| >= |head| + 1 + |ORPHAN|
  }

  lemma {:induction false} PlainPrefix(s: Bytes, i: nat)
    requires forall k :: 0 <= k < |s| ==> IsAlnum(s[k]) || s[k] == '_'
    ensures EscapedFrom(s, i) == s
  {
    if s != [] {
      PlainPrefix(s[1..], i + 1);
      assert [s[0]] + s[1..] == s;
    }
  }

  /** The directory of a job whose id starts with a digit is found by the pattern. */
  lemma JobDirFound(n: Naming, jobid: Bytes)
    requires n.Valid() && jobid != [] && IsDigit(jobid[0])
    ensures IsJobName(n, JobDir(n, jobid))
  {
    if n.slices {
      PlainPrefix(n.prefix, 0);
      assert Escaped(jobid)[0] == jobid[0];
    }
  }

  /** What the patterns select: the prefix, a dash and a digit, or just a digit; orphans end in their suffix besides. */
  lemma JobNameIff(n: Naming, name: Bytes)
    requires n.Valid()
    ensures n.slices ==> (IsJobName(n, name) <==>
      |name| > |n.prefix| + 1 && name[..|n.prefix| + 1] == n.prefix + ['-'] && '0' <= name[|n.prefix| + 1] <= '9')
    ensures !n.slices ==> (IsJobName(n, name) <==> name != [] && '0' <= name[0] <= '9')
    ensures IsOrphanName(n, name) <==>
      (IsJobName(n, name) && |name| >= 7 && name[|name| - 7..] == ['.', 'o', 'r', 'p', 'h', 'a', 'n'])
  {
    PlainPrefix(n.prefix, 0);
    if IsJobName(n, name) && EndsWith(name, ORPHAN) {
      NoDigitInSuffix(name, if n.slices then |n.prefix| + 1 else 0);
    }
  }

  lemma NoDigitInSuffix(name: Bytes, i: nat)
    requires EndsWith(name, ORPHAN) && i < |name| && IsDigit(name[i])
    ensures i < |name| - |ORPHAN|
  {
    var t := |name| - |ORPHAN|;
    forall k | t <= k < |name| ensures !IsDigit(name[k]) {
      assert name[t..][k - t] == name[k];
    }
  }

  /** Appending the orphan suffix to a job name makes an orphan name that stands for an id with that suffix. */
  lemma OrphanOf(n: Naming, name: Bytes)
    requires IsJobName(n, name)
    ensures IsOrphanName(n, name + ORPHAN) && IsJobName(n, name + ORPHAN)
  {
  }

  /** Names that end in the orphan suffix decode to ids that end in it. */
  lemma OrphanNameDecodes(n: Naming, name: Bytes)
    requires EndsWith(name, ORPHAN) && DirJob(n, name).Some?
    ensures EndsWith(DirJob(n, name).value, ORPHAN)
  {
    if n.slices {
      assert SLICE[1..][4] == 'e' && name[|name| - 5..][4] == 'n';
      assert !EndsWith(name, SLICE[1..]);
      StripNothing(n, name, 0);
      var body := name[..|name| - |ORPHAN|];
      assert name == body + ORPHAN;
      OrphanIsPlain();
      assert DirJob(n, name) == Unescaped(body + ORPHAN);
      PlainTail(body, ORPHAN);
    }
  }

  lemma OrphanIsPlain()
    ensures |ORPHAN| == 7 && ORPHAN[0] == '.' && forall k :: 0 <= k < |ORPHAN| ==> Plain(ORPHAN[k])
  {
  }

  lemma StripNothing(n: Naming, name: Bytes, p: nat)
    requires p <= |name| && !EndsWith(name, SLICE[1..])
    ensures StripFrom(n, name, p) == name
    decreases |name| - p
  {
    if p < |name| {
      StripNothing(n, name, p + 1);
    }
  }

  /** A plain tail survives decoding, unless decoding fails altogether. */
  lemma {:induction false} PlainTail(body: Bytes, tail: Bytes)
    requires |tail| > 0 && tail[0] == '.' && forall k :: 0 <= k < |tail| ==> Plain(tail[k])
    requires Unescaped(body + tail).Some?
    ensures EndsWith(Unescaped(body + tail).value, tail)
    decreases |body|
  {
    var s := body + tail;
    if body == [] {
      assert s == tail;
      PlainDecodes(tail);
    } else if StartsEscape(s) {
      assert s[|body|] == '.';
      assert |body| >= 4;
      assert s[4..] == body[4..] + tail;
      PlainTail(body[4..], tail);
      EndsWithCons([FromHex(s[2], s[3])], Unescaped(s[4..]).value, tail);
    } else {
      assert s[1..] == body[1..] + tail;
      PlainTail(body[1..], tail);
      EndsWithCons(Unescaped(s).value[..1], Unescaped(s[1..]).value, tail);
      assert Unescaped(s).value == Unescaped(s).value[..1] + Unescaped(s[1..]).value;
    }
  }

  lemma EndsWithCons(a: Bytes, s: Bytes, tail: Bytes)
    requires EndsWith(s, tail)
    ensures EndsWith(a + s, tail)
  {
  }

  lemma {:induction false} PlainDecodes(s: Bytes)
    requires forall k :: 0 <= k < |s| ==> Plain(s[k])
    ensures Unescaped(s) == Some(s)
  {
    if s != [] {
      PlainDecodes(s[1..]);
      assert [s[0]] + s[1..] == s;
    }
  }
}
