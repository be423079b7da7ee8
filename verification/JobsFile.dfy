/** The side file that lists new jobs: one line of ids, rewritten in place and truncated. */
module JobsFile {
  import opened Collections
  import opened UnitNames

  /** A text that split() can return as a word. */
  predicate IsWord(w: Bytes) {
    w != [] && forall i :: 0 <= i < |w| ==> !IsSpace(w[i])
  }

  /** What readline() returns on a freshly opened file. */
  function FirstLine(content: Bytes): Bytes {
    if content == [] then []
    else if content[0] == '\n' then ['\n']
    else [content[0]] + FirstLine(content[1..])
  }

  function WordLength(s: Bytes): (n: nat)
    ensures n <= |s| && forall i :: 0 <= i < n ==> !IsSpace(s[i])
    ensures n < |s| ==> IsSpace(s[n])
  {
    if s == [] || IsSpace(s[0]) then 0 else 1 + WordLength(s[1..])
  }

  function Words(s: Bytes): (ws: seq<Bytes>)
    ensures forall w :: w in ws ==> IsWord(w)
    decreases |s|
  {
    if s == [] then []
    else if IsSpace(s[0]) then Words(s[1..])
    else
      var n := WordLength(s);
      assert n > 0;
      [s[..n]] + Words(s[n..])
  }

  function Join(ws: seq<Bytes>): Bytes {
    if ws == [] then [] else if |ws| == 1 then ws[0] else ws[0] + [' '] + Join(ws[1..])
  }

  /** The set of ids that a file content stands for. */
  ghost function Ids(content: Bytes): set<Bytes> {
    Elements(Words(FirstLine(content)))
  }

  lemma WordLengthOf(w: Bytes, rest: Bytes)
    requires IsWord(w) && (rest != [] ==> IsSpace(rest[0]))
    ensures WordLength(w + rest) == |w|
  {
    forall i | 0 <= i < |w| ensures !IsSpace((w + rest)[i]) {
      assert (w + rest)[i] == w[i];
    }
    if rest != [] {
      assert (w + rest)[|w|] == rest[0];
    }
  }

  lemma {:induction false} SplitJoin(ws: seq<Bytes>)
    requires forall w :: w in ws ==> IsWord(w)
    ensures Words(Join(ws)) == ws
  {
    if ws != [] {
      var w, rest := ws[0], ws[1..];
      SplitJoin(rest);
      var tail := if rest == [] then [] else [' '] + Join(rest);
      assert Join(ws) == w + tail;
      WordLengthOf(w, tail);
      assert (w + tail)[..|w|] == w && (w + tail)[|w|..] == tail;
      assert rest != [] ==> tail[1..] == Join(rest);
      assert (w + tail)[0] == w[0];
    }
  }

  lemma {:induction false} JoinOneLine(ws: seq<Bytes>)
    requires forall w :: w in ws ==> IsWord(w)
    ensures forall i :: 0 <= i < |Join(ws)| ==> Join(ws)[i] != '\n'
  {
    if ws != [] {
      assert ws[0] in ws && IsWord(ws[0]);
      JoinOneLine(ws[1..]);
    }
  }

  lemma OneLine(s: Bytes)
    requires forall i :: 0 <= i < |s| ==> s[i] != '\n'
    ensures FirstLine(s) == s
  {
  }

  /** Whatever order the set is written in, the file reads back as the set. */
  lemma ReadsBack(ws: seq<Bytes>)
    requires forall w :: w in ws ==> IsWord(w)
    ensures Ids(Join(ws)) == Elements(ws)
  {
    JoinOneLine(ws);
    OneLine(Join(ws));
    SplitJoin(ws);
  }

  /** Only the first line counts, and the ids on it are what blanks separate. */
  lemma FirstLineOnly(line: Bytes, more: Bytes)
    requires forall i :: 0 <= i < |line| ==> line[i] != '\n'
    ensures Ids(line + ['\n'] + more) == Ids(line)
  {
    CutAtNewline(line, more);
    OneLine(line);
    BlankSplits(line, '\n', []);
    assert line + ['\n'] + [] == line + ['\n'];
  }

  lemma {:induction false} CutAtNewline(line: Bytes, more: Bytes)
    requires forall i :: 0 <= i < |line| ==> line[i] != '\n'
    ensures FirstLine(line + ['\n'] + more) == line + ['\n']
  {
    var s := line + ['\n'] + more;
    if line != [] {
      assert s[1..] == line[1..] + ['\n'] + more;
      CutAtNewline(line[1..], more);
      assert line + ['\n'] == [line[0]] + (line[1..] + ['\n']);
    }
  }

  /** A blank character ends a word. */
  lemma {:induction false} BlankSplits(a: Bytes, blank: Byte, b: Bytes)
    requires IsSpace(blank)
    ensures Words(a + [blank] + b) == Words(a) + Words(b)
    decreases |a|
  {
    var s := a + [blank] + b;
    if a == [] {
      assert s[1..] == b;
    } else if IsSpace(a[0]) {
      assert s[1..] == a[1..] + [blank] + b;
      BlankSplits(a[1..], blank, b);
    } else {
      var n := WordLength(a);
      assert n > 0;
      BlankSplits(a[n..], blank, b);
      FirstWord(a[..n], a[n..] + [blank] + b);
      FirstWord(a[..n], a[n..]);
      assert a[..n] + a[n..] == a && a[..n] + (a[n..] + [blank] + b) == s;
      assert [a[..n]] + Words(a[n..]) + Words(b) == [a[..n]] + (Words(a[n..]) + Words(b));
    }
  }

  lemma FirstWord(word: Bytes, rest: Bytes)
    requires IsWord(word) && (rest != [] ==> IsSpace(rest[0]))
    ensures Words(word + rest) == [word] + Words(rest)
  {
    var s := word + rest;
    WordLengthOf(word, rest);
    assert s[0] == word[0] && s[..|word|] == word && s[|word|..] == rest;
  }

  class SideFile {
    var content: Bytes

    /** An absent file is created empty when the hook starts. */
    constructor ()
      ensures content == [] && Ids(content) == {}
    {
      content := [];
    }

    method Read() returns (ids: seq<Bytes>)
      ensures Elements(ids) == Ids(content)
      ensures forall w :: w in ids ==> IsWord(w)
    {
      ids := Words(FirstLine(content));
    }

    /** Write at the start of the file; what was longer stays behind the new text. */
    method WriteAtStart(text: Bytes)
      modifies this
      ensures content == text + if |text| <= |old(content)| then old(content)[|text|..] else []
    {
      content := text + if |text| <= |content| then content[|text|..] else [];
    }

    method Truncate(length: nat)
      requires length <= |content|
      modifies this
      ensures content == old(content)[..length]
    {
      content := content[..length];
    }

    method Store(ids: set<Bytes>)
      requires forall w :: w in ids ==> IsWord(w)
      modifies this
      ensures Ids(content) == ids
    {
      var list := ListOf(ids);
      assert forall w :: w in list ==> w in Elements(list);
      var text := Join(list);
      WriteAtStart(text);
      Truncate(|text|);
      assert content == text;
      ReadsBack(list);
    }

    /** Add an id, whatever the file held before. */
    method Add(jobid: Bytes)
      requires IsWord(jobid)
      modifies this
      ensures Ids(content) == old(Ids(content)) + {jobid}
    {
      var list := Read();
      assert forall w :: w in Elements(list) ==> w in list;
      Store(Elements(list) + {jobid});
    }

    method Discard(jobid: Bytes)
      modifies this
      ensures Ids(content) == old(Ids(content)) - {jobid}
    {
      var list := Read();
      assert forall w :: w in Elements(list) ==> w in list;
      Store(Elements(list) - {jobid});
    }
  }

  /** The members of a set in some order. */
  method ListOf(s: set<Bytes>) returns (list: seq<Bytes>)
    ensures Elements(list) == s
  {
    list := [];
    var todo := s;
    while todo != {}
      invariant todo <= s && Elements(list) == s - todo
    {
      var x :| x in todo;
      ElementsAppend(list, [x]);
      assert Elements([x]) == {x};
      list := list + [x];
      todo := todo - {x};
    }
  }
}
