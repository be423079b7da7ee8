/** The comma-separated CPU and NUMA node lists that are written to and read from the cpuset files. */
module CpuLists {
  import opened Collections
  import opened Sizes

  function StripLeft(s: string): string {
    if s != "" && IsSpace(s[0]) then StripLeft(s[1..]) else s
  }

  function StripRight(s: string): string {
    if s != "" && IsSpace(s[|s| - 1]) then StripRight(s[..|s| - 1]) else s
  }

  function Strip(s: string): string {
    StripRight(StripLeft(s))
  }

  /** The decimal text of an integer. */
  function Str(n: int): string {
    if n < 0 then "-" + Digits(-n) else Digits(n)
  }

  /** int() of a text; nothing where it raises ValueError. */
  function ParseInt(text: string): Option<int> {
    var s := Strip(text);
    var signed := s != "" && (s[0] == '-' || s[0] == '+');
    var digits := if signed then s[1..] else s;
    if digits == "" || !AllDigits(digits) then None
    else
      var n: int := Value(digits);
      Some(if signed && s[0] == '-' then -n else n)
  }

  /** The position of a character, or the length. */
  function Find(s: string, c: char): (i: nat)
    ensures i <= |s| && c !in s[..i] && (i < |s| ==> s[i] == c)
  {
    if s == "" || s[0] == c then 0
    else
      var i := Find(s[1..], c);
      assert s[..i + 1] == [s[0]] + s[1..][..i];
      i + 1
  }

  /** The parts of a text between its commas. */
  function Split(s: string): seq<string> {
    var i := Find(s, ',');
    if i == |s| then [s] else [s[..i]] + Split(s[i + 1..])
  }

  /** The integers from a to b. */
  function Range(a: int, b: int): (r: seq<int>)
    ensures Increasing(r) && forall x :: x in r <==> a <= x <= b
    decreases b - a
  {
    if a > b then []
    else
      var rest := Range(a + 1, b);
      SortedCons(a, rest);
      [a] + rest
  }

  /** One entry: a range if a dash follows its first character, else a number. */
  function Entry(e: string): Option<seq<int>> {
    if e != "" && '-' in e[1..] then
      var i := Find(e, '-');
      if i == |e| then None
      else
        match (ParseInt(e[..i]), ParseInt(e[i + 1..]))
        case (Some(a), Some(b)) => Some(Range(a, b))
        case _ => None
    else
      match ParseInt(e)
      case Some(n) => Some([n])
      case None => None
  }

  function EntryList(es: seq<string>): seq<Option<seq<int>>> {
    seq(|es|, i requires 0 <= i < |es| => Entry(es[i]))
  }

  /** The entries' numbers one after the other; nothing if some entry cannot be read. */
  function Collect(rs: seq<Option<seq<int>>>): Option<seq<int>> {
    if rs == [] then Some([])
    else
      match (Collect(rs[..|rs| - 1]), rs[|rs| - 1])
      case (Some(a), Some(b)) => Some(a + b)
      case _ => None
  }

  /** What a condensed list stands for. */
  function Expanded(text: string): Option<seq<int>> {
    if Strip(text) == "" then Some([]) else Collect(EntryList(Split(Strip(text))))
  }

  /** Expand a condensed list; nothing where a number cannot be read. */
  method ExpandList(text: string) returns (r: Option<seq<int>>)
    ensures r == Expanded(text)
  {
    var list := [];
    var stripped := Strip(text);
    if stripped == "" {
      return Some(list);
    }
    var entries := Split(stripped);
    ghost var rs := EntryList(entries);
    var k := 0;
    while k < |entries|
      invariant 0 <= k <= |entries| && Collect(rs[..k]) == Some(list)
    {
      var items := ReadEntry(entries[k]);
      CollectStep(rs, k);
      if items.None? {
        NoneStays(rs, k + 1);
        return None;
      }
      list := list + items.value;
      k := k + 1;
    }
    assert rs[..k] == rs;
    return Some(list);
  }

  method ReadEntry(e: string) returns (items: Option<seq<int>>)
    ensures items == Entry(e)
  {
    if e != "" && '-' in e[1..] {
      var i := Find(e, '-');
      assert i < |e| by {
        assert '-' in e;
      }
      var start, end := ParseInt(e[..i]), ParseInt(e[i + 1..]);
      if start.None? || end.None? {
        return None;
      }
      var range := ExpandRange(start.value, end.value);
      return Some(range);
    }
    var n := ParseInt(e);
    return if n.None? then None else Some([n.value]);
  }

  lemma CollectStep(rs: seq<Option<seq<int>>>, k: nat)
    requires k < |rs|
    ensures Collect(rs[..k + 1]) ==
      match (Collect(rs[..k]), rs[k])
      case (Some(a), Some(b)) => Some(a + b)
      case _ => None
  {
    assert rs[..k + 1][..k] == rs[..k];
  }

  method ExpandRange(a: int, b: int) returns (r: seq<int>)
    ensures r == Range(a, b)
  {
    r := [];
    var i := a;
    while i <= b
      invariant a <= i && (a <= b + 1 ==> i <= b + 1)
      invariant r + Range(i, b) == Range(a, b)
    {
      assert r + [i] + Range(i + 1, b) == r + ([i] + Range(i + 1, b));
      r := r + [i];
      i := i + 1;
    }
  }

  lemma NoneStays(rs: seq<Option<seq<int>>>, k: nat)
    requires k <= |rs| && Collect(rs[..k]).None?
    ensures Collect(rs).None?
    decreases |rs| - k
  {
    if k == |rs| {
      assert rs[..k] == rs;
    } else {
      assert rs[..k + 1][..k] == rs[..k];
      NoneStays(rs, k + 1);
    }
  }

  // ---------- what a list means ----------

  predicate Blank(s: string) {
    forall i :: 0 <= i < |s| ==> IsSpace(s[i])
  }

  /** Blanks around a text are dropped, and nothing else. */
  lemma {:induction false} StripIs(a: string, s: string, b: string)
    requires Blank(a) && Blank(b) && (s != "" ==> !IsSpace(s[0]) && !IsSpace(s[|s| - 1]))
    ensures Strip(a + s + b) == s
  {
    LeftBlanks(a, s + b);
    assert a + s + b == a + (s + b);
    if s == "" {
      LeftBlanks(b, "");
      assert s + b == b + "" == b;
    } else {
      assert (s + b)[0] == s[0];
      RightBlanks(s, b);
    }
  }

  lemma {:induction false} LeftBlanks(a: string, s: string)
    requires Blank(a)
    ensures StripLeft(a + s) == StripLeft(s)
  {
    if a == "" {
      assert a + s == s;
    } else {
      assert (a + s)[1..] == a[1..] + s;
      LeftBlanks(a[1..], s);
    }
  }

  lemma {:induction false} RightBlanks(s: string, b: string)
    requires Blank(b) && s != "" && !IsSpace(s[|s| - 1])
    ensures StripRight(s + b) == s
  {
    if b == "" {
      assert s + b == s;
    } else {
      var n := |b| - 1;
      assert (s + b)[..|s + b| - 1] == s + b[..n] && (s + b)[|s + b| - 1] == b[n];
      RightBlanks(s, b[..n]);
    }
  }

  /** A number is an optional sign and digits, with blanks around it; without digits it is none. */
  lemma NumberIs(a: string, sign: string, d: string, b: string)
    requires Blank(a) && Blank(b) && (sign == "" || sign == "-" || sign == "+") && AllDigits(d)
    ensures ParseInt(a + (sign + d) + b) == Number(sign, d)
  {
    StripIs(a, sign + d, b);
    StrippedNumber(a + (sign + d) + b, sign, d);
  }

  function Number(sign: string, d: string): Option<int>
    requires AllDigits(d)
  {
    var n: int := Value(d);
    if d == "" then None else Some(if sign == "-" then -n else n)
  }

  lemma StrippedNumber(text: string, sign: string, d: string)
    requires Strip(text) == sign + d && (sign == "" || sign == "-" || sign == "+") && AllDigits(d)
    ensures ParseInt(text) == Number(sign, d)
  {
    var s := Strip(text);
    if sign == "" {
      assert s == d;
    } else {
      assert s[0] == sign[0] && s[1..] == d;
    }
  }

  /** The entries before a comma come first, and one that cannot be read spoils the list. */
  lemma ListIs(e: string, rest: string)
    requires ',' !in e && rest != "" && Strip(rest) == rest && Strip(e + "," + rest) == e + "," + rest
    ensures Expanded(e + "," + rest) ==
      if Entry(e).Some? && Expanded(rest).Some? then Some(Entry(e).value + Expanded(rest).value) else None
  {
    EntriesFirst(e, rest);
    CollectFront(Entry(e), EntryList(Split(rest)));
    StrippedList(e + "," + rest);
    StrippedList(rest);
  }

  lemma StrippedList(text: string)
    requires Strip(text) == text && text != ""
    ensures Expanded(text) == Collect(EntryList(Split(text)))
  {
  }

  lemma EntriesFirst(e: string, rest: string)
    requires ',' !in e
    ensures EntryList(Split(e + "," + rest)) == [Entry(e)] + EntryList(Split(rest))
  {
    SplitFirst(e, rest);
    EntryCons(e, Split(rest));
  }

  lemma EntryCons(e: string, es: seq<string>)
    ensures EntryList([e] + es) == [Entry(e)] + EntryList(es)
  {
    forall i | 0 <= i <= |es| ensures EntryList([e] + es)[i] == ([Entry(e)] + EntryList(es))[i] {
      assert ([e] + es)[i] == if i == 0 then e else es[i - 1];
    }
  }

  lemma {:induction false} CollectFront(r: Option<seq<int>>, rs: seq<Option<seq<int>>>)
    ensures Collect([r] + rs) == if r.Some? && Collect(rs).Some? then Some(r.value + Collect(rs).value) else None
  {
    var n := |rs| - 1;
    if rs == [] {
      assert ([r] + rs)[..0] == [];
      if r.Some? {
        assert [] + r.value == r.value + [];
      }
    } else {
      assert ([r] + rs)[..n + 1] == [r] + rs[..n] && ([r] + rs)[n + 1] == rs[n];
      CollectFront(r, rs[..n]);
      if r.Some? && Collect(rs[..n]).Some? && rs[n].Some? {
        assert (r.value + Collect(rs[..n]).value) + rs[n].value == r.value + (Collect(rs[..n]).value + rs[n].value);
      }
    }
  }

  // ---------- writing and reading back ----------

  /** The text written to a cpuset file. */
  function Joined(xs: seq<int>): string {
    if xs == [] then "" else if |xs| == 1 then Str(xs[0]) else Str(xs[0]) + "," + Joined(xs[1..])
  }

  /** A character of a written list. */
  predicate ListChar(c: char) {
    IsDigit(c) || c == '-' || c == ','
  }

  lemma StrShape(n: int)
    ensures Str(n) != "" && '-' !in Str(n)[1..] && ',' !in Str(n)
    ensures forall i :: 0 <= i < |Str(n)| ==> ListChar(Str(n)[i])
  {
    var d := Digits(if n < 0 then -n else n);
    assert Str(n) == (if n < 0 then "-" else "") + d;
    assert forall c :: c in d ==> IsDigit(c);
  }

  lemma StripNothing(s: string)
    requires forall i :: 0 <= i < |s| ==> ListChar(s[i])
    ensures Strip(s) == s
  {
  }

  lemma ParseStr(n: int)
    ensures ParseInt(Str(n)) == Some(n)
  {
    StrShape(n);
    StripNothing(Str(n));
    if n < 0 {
      assert Str(n)[1..] == Digits(-n);
      ValueOfDigits(-n);
    } else {
      assert IsDigit(Str(n)[0]);
      ValueOfDigits(n);
    }
  }

  lemma FindFirst(a: string, c: char, b: string)
    requires c !in a && (b != "" ==> b[0] == c)
    ensures Find(a + b, c) == |a|
  {
    if a == "" {
      assert a + b == b;
    } else {
      assert (a + b)[1..] == a[1..] + b;
      FindFirst(a[1..], c, b);
    }
  }

  lemma {:induction false} JoinedShape(xs: seq<int>)
    ensures forall i :: 0 <= i < |Joined(xs)| ==> ListChar(Joined(xs)[i])
    ensures xs != [] ==> Joined(xs) != ""
  {
    if xs != [] {
      StrShape(xs[0]);
      JoinedShape(xs[1..]);
    }
  }

  lemma SplitFirst(head: string, rest: string)
    requires ',' !in head
    ensures Split(head) == [head]
    ensures Split(head + "," + rest) == [head] + Split(rest)
  {
    FindFirst(head, ',', "");
    assert head + "" == head;
    var s := head + ("," + rest);
    assert s == head + "," + rest;
    FindFirst(head, ',', "," + rest);
    assert s[..|head|] == head && s[|head| + 1..] == rest;
  }

  lemma {:induction false} SplitJoined(xs: seq<int>)
    requires xs != []
    ensures |Split(Joined(xs))| == |xs| && forall i :: 0 <= i < |xs| ==> Split(Joined(xs))[i] == Str(xs[i])
  {
    StrShape(xs[0]);
    SplitFirst(Str(xs[0]), Joined(xs[1..]));
    if |xs| > 1 {
      SplitJoined(xs[1..]);
      assert Split(Joined(xs)) == [Str(xs[0])] + Split(Joined(xs[1..]));
    }
  }

  lemma {:induction false} EntryOfStr(n: int)
    ensures Entry(Str(n)) == Some([n])
  {
    StrShape(n);
    ParseStr(n);
  }

  lemma {:induction false} CollectSingles(rs: seq<Option<seq<int>>>, xs: seq<int>, k: nat)
    requires k <= |rs| == |xs| && forall i :: 0 <= i < |xs| ==> rs[i] == Some([xs[i]])
    ensures Collect(rs[..k]) == Some(xs[..k])
  {
    if k > 0 {
      CollectSingles(rs, xs, k - 1);
      CollectStep(rs, k - 1);
      assert xs[..k - 1] + [xs[k - 1]] == xs[..k];
    }
  }

  /** A list of integers that is joined with commas and written out is read back unchanged. */
  lemma ListRoundTrip(xs: seq<int>)
    ensures Expanded(Joined(xs)) == Some(xs)
  {
    JoinedShape(xs);
    StripNothing(Joined(xs));
    if xs != [] {
      EntriesOfJoined(xs);
      var rs := EntryList(Split(Joined(xs)));
      CollectSingles(rs, xs, |xs|);
      assert rs[..|xs|] == rs && xs[..|xs|] == xs;
    }
  }

  lemma EntriesOfJoined(xs: seq<int>)
    requires xs != []
    ensures var rs := EntryList(Split(Joined(xs)));
      |rs| == |xs| && forall i :: 0 <= i < |xs| ==> rs[i] == Some([xs[i]])
  {
    SplitJoined(xs);
    forall i | 0 <= i < |xs| ensures Entry(Str(xs[i])) == Some([xs[i]]) {
      EntryOfStr(xs[i]);
    }
  }

  lemma DashSplits(s: string, t: string)
    requires s != "" && '-' !in s
    ensures var e := s + "-" + t;
      '-' in e[1..] && Find(e, '-') == |s| && e[..|s|] == s && e[|s| + 1..] == t
  {
    var e := s + ("-" + t);
    assert e == s + "-" + t;
    FindFirst(s, '-', "-" + t);
    assert e[1..][|s| - 1] == '-';
  }

  /** A range entry of two naturals stands for exactly the integers between them. */
  lemma RangeEntry(a: nat, b: nat)
    ensures Entry(Str(a) + "-" + Str(b)) == Some(Range(a, b))
  {
    assert forall c :: c in Digits(a) ==> IsDigit(c);
    DashSplits(Str(a), Str(b));
    ParseStr(a);
    ParseStr(b);
  }
}
