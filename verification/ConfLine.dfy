/** One line of a configuration file: comment scan, trim, split and unescape, against
    a printer that escapes every comment sign. */
module ConfLine {
  import opened CommonRl

  datatype Parsed = Nothing | Entry(name: Bytes, value: Bytes) | Include(file: Bytes) | Aborted

  // "*INCLUDE"
  const INCLUDE: Bytes := [42, 73, 78, 67, 76, 85, 68, 69]
  const ESCAPED_HASH: Bytes := [BACKSLASH, HASH]

  /** A `string` made from a character buffer ends at the first NUL. */
  function CString(s: Bytes): Bytes {
    var end := IndexOf(s, NUL, 0);
    if end == -1 then s else s[..end]
  }

  /** A comment sign at i is ignored if a backslash stands before it.  Before the
      first byte of the line the source reads some byte in memory, here `stray`. */
  predicate Escaped(s: Bytes, i: nat, stray: Byte)
    requires i <= |s|
  {
    (if i == 0 then stray else s[i - 1]) == BACKSLASH
  }

  function CommentStart(s: Bytes, from: nat, stray: Byte): (r: int)
    ensures r == -1 || (from <= r < |s| && s[r] == HASH && !Escaped(s, r, stray))
    ensures forall i :: from <= i < |s| && (r == -1 || i < r) ==> s[i] == HASH ==> Escaped(s, i, stray)
    decreases |s| - from
  {
    if from >= |s| then -1
    else if s[from] == HASH && !Escaped(s, from, stray) then from
    else CommentStart(s, from + 1, stray)
  }

  function Stripped(s: Bytes, stray: Byte): Bytes {
    var k := CommentStart(s, 0, stray);
    if k == -1 then s else s[..k]
  }

  method StripComment(source: Bytes, stray: Byte) returns (s: Bytes)
    ensures s == Stripped(source, stray)
  {
    s := source;
    ghost var checked := 0;
    var where := IndexOf(s, HASH, 0);
    while where != -1
      invariant checked <= |source|
      invariant forall i :: 0 <= i < checked ==> source[i] == HASH ==> Escaped(source, i, stray)
      invariant where != -1 ==> s == source && where == IndexOf(s, HASH, checked)
      invariant where == -1 ==> s == Stripped(source, stray)
      decreases where != -1, |source| - checked
    {
      if Escaped(s, where, stray) {
        checked := where + 1;
        where := IndexOf(s, HASH, where + 1);
      } else {
        s := s[..where];
        where := -1;
      }
    }
  }

  function FirstTabOrBlank(s: Bytes, from: nat): (r: int)
    ensures r == -1 || (from <= r < |s| && (s[r] == TAB || s[r] == BLANK))
    ensures forall i :: from <= i < |s| && (r == -1 || i < r) ==> s[i] != TAB && s[i] != BLANK
    decreases |s| - from
  {
    if from >= |s| then -1
    else if s[from] == TAB || s[from] == BLANK then from
    else FirstTabOrBlank(s, from + 1)
  }

  /** `gsub` throws on an empty target, which ends the reading of the file. */
  function Parse(line: Bytes, stray: Byte): Parsed {
    var s := Trimmed(Stripped(CString(line), stray));
    var at := FirstTabOrBlank(s, 0);
    if at == -1 then Nothing
    else
      var n, v := Trimmed(s[..at]), Trimmed(s[at..]);
      if n == [] || v == [] then Aborted
      else
        var name, value := Replace(n, ESCAPED_HASH, [HASH]), Replace(v, ESCAPED_HASH, [HASH]);
        if name == INCLUDE then Include(value)
        else if name != [] then Entry(name, value)
        else Nothing
  }

  method ParseLine(line: Bytes, stray: Byte) returns (p: Parsed)
    ensures p == Parse(line, stray)
  {
    var s := StripComment(CString(line), stray);
    s := Trim(s);
    var at := FirstTabOrBlank(s, 0);
    if at == -1 {
      return Nothing;
    }
    var first := Trim(s[..at]);
    var name := Gsub(first, ESCAPED_HASH, [HASH]);
    if name.None? {
      return Aborted;
    }
    var second := Trim(s[at..]);
    var value := Gsub(second, ESCAPED_HASH, [HASH]);
    if value.None? {
      return Aborted;
    }
    if name.value == INCLUDE {
      return Include(value.value);
    } else if name.value != [] {
      return Entry(name.value, value.value);
    }
    return Nothing;
  }

  /** A line that holds nothing but white space before its comment aborts the
      reading, and no other line does. */
  lemma AbortsIff(line: Bytes, stray: Byte)
    requires NEWLINE !in line
    ensures var s := Stripped(CString(line), stray);
            Parse(line, stray).Aborted? <==> s != [] && AllBlank(s)
  {
    var s := Stripped(CString(line), stray);
    TrimTrimsIff(s);
    if s != [] && AllBlank(s) {
      assert s[0] in line && s[0] != NEWLINE;
      assert FirstTabOrBlank(Trimmed(s), 0) == 0;
    }
  }

  /** A name without a value is not stored: a line stores or includes something, or
      aborts, exactly if a tab or a blank is left in it. */
  lemma NothingIff(line: Bytes, stray: Byte)
    requires NEWLINE !in line
    ensures var t := Trimmed(Stripped(CString(line), stray));
            Parse(line, stray).Nothing? <==> TAB !in t && BLANK !in t
  {
  }

  // ----- The printer -----

  function EscapeHash(s: Bytes): Bytes { Subst(s, HASH, ESCAPED_HASH) }

  predicate HashesEscaped(s: Bytes) {
    forall i :: 0 <= i < |s| && s[i] == HASH ==> i > 0 && s[i - 1] == BACKSLASH
  }

  lemma {:induction false} EscapedText(s: Bytes)
    ensures var e := EscapeHash(s);
      && HashesEscaped(e)
      && (e == [] <==> s == [])
      && (s != [] ==> e[0] == (if s[0] == HASH then BACKSLASH else s[0]) && e[|e| - 1] == s[|s| - 1])
      && forall i :: 0 <= i < |e| ==> e[i] == BACKSLASH || e[i] in s
  {
    if s != [] {
      EscapedText(s[1..]);
      var first := if s[0] == HASH then ESCAPED_HASH else [s[0]];
      var rest := EscapeHash(s[1..]);
      var e := EscapeHash(s);
      assert e == first + rest;
      assert |s| > 1 ==> s[1..][|s| - 2] == s[|s| - 1] && e[|e| - 1] == rest[|rest| - 1];
      forall i | 0 <= i < |e| ensures e[i] == BACKSLASH || e[i] in s {
        if i >= |first| {
          assert e[i] == rest[i - |first|];
        }
      }
      forall i | 0 <= i < |e| && e[i] == HASH ensures i > 0 && e[i - 1] == BACKSLASH {
        if i >= |first| {
          assert e[i] == rest[i - |first|] && e[i - 1] == rest[i - |first| - 1];
        }
      }
    }
  }

  lemma UnescapeSign(rest: Bytes)
    ensures Replace(ESCAPED_HASH + rest, ESCAPED_HASH, [HASH]) == [HASH] + Replace(rest, ESCAPED_HASH, [HASH])
  {
    var s := ESCAPED_HASH + rest;
    assert s[..2] == ESCAPED_HASH && s[2..] == rest;
    assert MatchAt(s, ESCAPED_HASH, 0);
  }

  lemma UnescapePlain(b: Byte, rest: Bytes)
    requires b == BACKSLASH && rest != [] ==> rest[0] != HASH
    ensures Replace([b] + rest, ESCAPED_HASH, [HASH]) == [b] + Replace(rest, ESCAPED_HASH, [HASH])
  {
    var s := [b] + rest;
    assert s[1..] == rest;
    assert |s| >= 2 ==> s[..2] == [b, rest[0]];
    assert !MatchAt(s, ESCAPED_HASH, 0) by {
      assert ESCAPED_HASH[1] == HASH && ESCAPED_HASH[0] == BACKSLASH;
    }
  }

  /** Unescaping undoes escaping, even next to backslashes of the text itself and
      whatever follows, unless that begins with a comment sign. */
  lemma {:induction false} UnescapeHashBefore(s: Bytes, w: Bytes)
    requires w != [] ==> w[0] != HASH
    ensures Replace(EscapeHash(s) + w, ESCAPED_HASH, [HASH]) == s + Replace(w, ESCAPED_HASH, [HASH])
  {
    var after := Replace(w, ESCAPED_HASH, [HASH]);
    if s == [] {
      assert EscapeHash(s) + w == w && s + after == after;
    } else {
      UnescapeHashBefore(s[1..], w);
      EscapedText(s[1..]);
      var rest := EscapeHash(s[1..]) + w;
      if s[0] == HASH {
        Concat(ESCAPED_HASH, EscapeHash(s[1..]), w);
        UnescapeSign(rest);
      } else {
        Concat([s[0]], EscapeHash(s[1..]), w);
        UnescapePlain(s[0], rest);
      }
      assert s == [s[0]] + s[1..];
      Concat([s[0]], s[1..], after);
    }
  }

  lemma UnescapeHash(s: Bytes)
    ensures Replace(EscapeHash(s), ESCAPED_HASH, [HASH]) == s
  {
    UnescapeHashBefore(s, []);
    assert EscapeHash(s) + [] == EscapeHash(s) && s + [] == s;
  }

  /** What may be written: a name, a value and the layout around them. */
  datatype Line = Line(name: Bytes, value: Bytes, lead: Bytes, gap: Bytes, padding: Bytes, comment: Bytes)

  predicate OnlyTabsAndBlanks(s: Bytes) { forall i :: 0 <= i < |s| ==> s[i] == TAB || s[i] == BLANK }

  predicate Plain(s: Bytes) { NUL !in s && NEWLINE !in s }

  predicate Writable(l: Line) {
    && l.name != [] && Plain(l.name) && TAB !in l.name && BLANK !in l.name
    && l.value != [] && Plain(l.value) && IsTrimmed(l.value)
    && OnlyTabsAndBlanks(l.lead) && OnlyTabsAndBlanks(l.gap) && OnlyTabsAndBlanks(l.padding)
    && l.gap != []
    && (l.comment != [] ==> l.comment[0] == HASH && NEWLINE !in l.comment)
  }

  /** What the line says. */
  function Meaning(l: Line): Parsed { if l.name == INCLUDE then Include(l.value) else Entry(l.name, l.value) }

  /** The comment is glued to a value that ends in a backslash, which escapes its sign. */
  predicate Glued(l: Line) {
    l.comment != [] && l.padding == [] && l.value != [] && l.value[|l.value| - 1] == BACKSLASH
  }

  function Core(l: Line): Bytes { EscapeHash(l.name) + l.gap + EscapeHash(l.value) }

  function Body(l: Line): Bytes { l.lead + Core(l) + l.padding }

  function Text(l: Line): Bytes { Body(l) + l.comment }

  lemma HashesEscapedConcat(a: Bytes, b: Bytes)
    requires HashesEscaped(a) && HashesEscaped(b)
    ensures HashesEscaped(a + b)
  {
  }

  lemma BodyIsEscaped(l: Line)
    requires Writable(l)
    ensures HashesEscaped(Body(l)) && Body(l) != [] && NUL !in Body(l) && NEWLINE !in Body(l)
  {
    EscapedText(l.name);
    EscapedText(l.value);
    HashesEscapedConcat(EscapeHash(l.name), l.gap);
    HashesEscapedConcat(EscapeHash(l.name) + l.gap, EscapeHash(l.value));
    HashesEscapedConcat(l.lead, Core(l));
    HashesEscapedConcat(l.lead + Core(l), l.padding);
  }

  lemma CommentIs(s: Bytes, from: nat, w: nat, stray: Byte)
    requires from <= w <= |s| && (forall i :: from <= i < w && s[i] == HASH ==> Escaped(s, i, stray))
    requires w < |s| ==> s[w] == HASH && !Escaped(s, w, stray)
    ensures CommentStart(s, from, stray) == if w < |s| then w else -1
    decreases w - from
  {
  }

  // ----- comments -----

  /** Every comment sign of the text is escaped. */
  predicate CommentFree(s: Bytes, stray: Byte) {
    forall i :: 0 <= i < |s| && s[i] == HASH ==> Escaped(s, i, stray)
  }

  lemma CStringAfter(body: Bytes, comment: Bytes)
    requires NUL !in body
    ensures CString(body + comment) == body + CString(comment)
    ensures comment != [] && comment[0] != NUL ==> CString(comment) != [] && CString(comment)[0] == comment[0]
    ensures comment == [] ==> CString(comment) == []
  {
    var end := IndexOf(comment, NUL, 0);
    if end == -1 {
      IndexNone(body + comment, NUL, 0);
    } else {
      IndexIs(body + comment, NUL, 0, |body| + end);
      assert (body + comment)[..|body| + end] == body + comment[..end];
    }
  }

  lemma CStringEnds(a: Bytes, b: Bytes)
    requires NUL in a
    ensures CString(a + b) == CString(a)
  {
    var i :| 0 <= i < |a| && a[i] == NUL;
    var end := IndexOf(a, NUL, 0);
    IndexIs(a + b, NUL, 0, end);
    assert (a + b)[..end] == a[..end];
  }

  /** What follows a NUL in a line is lost. */
  lemma NulEndsTheLine(a: Bytes, b: Bytes, stray: Byte)
    requires NUL !in a
    ensures Parse(a + [NUL] + b, stray) == Parse(a, stray)
  {
    CStringAfter(a, [NUL] + b);
    assert a + [NUL] + b == a + ([NUL] + b);
    IndexIs([NUL] + b, NUL, 0, 0);
    CStringAfter(a, []);
    assert a + [] == a;
  }

  lemma CommentStripped(body: Bytes, comment: Bytes, stray: Byte)
    requires NUL !in body && CommentFree(body, stray)
    requires comment != [] ==> comment[0] == HASH && !Escaped(body, |body|, stray)
    ensures Stripped(CString(body + comment), stray) == body
  {
    CStringAfter(body, comment);
    var s := body + CString(comment);
    forall i | 0 <= i < |body| && s[i] == HASH ensures Escaped(s, i, stray) {
      assert body[i] == HASH;
    }
    assert |s| > |body| ==> !Escaped(s, |body|, stray);
    CommentIs(s, 0, |body|, stray);
    assert s[..|body|] == body;
  }

  /** A comment changes nothing, whatever stands before it, as long as the comment
      signs in there are escaped and its own is not. */
  lemma CommentIgnored(body: Bytes, comment: Bytes, stray: Byte)
    requires CommentFree(body, stray) && comment != [] && comment[0] == HASH && !Escaped(body, |body|, stray)
    ensures Parse(body + comment, stray) == Parse(body, stray)
  {
    if NUL in body {
      CStringEnds(body, comment);
    } else {
      CommentStripped(body, comment, stray);
      CommentStripped(body, [], stray);
      assert body + [] == body;
    }
    SameText(body + comment, body, stray);
  }

  lemma SameText(line: Bytes, other: Bytes, stray: Byte)
    requires Stripped(CString(line), stray) == Stripped(CString(other), stray)
    ensures Parse(line, stray) == Parse(other, stray)
  {
  }

  lemma EmptyLine(stray: Byte)
    ensures Parse([], stray) == Nothing
  {
  }

  /** A line that is a comment says nothing, if the byte before it is no backslash. */
  lemma CommentLine(comment: Bytes, stray: Byte)
    requires comment != [] && comment[0] == HASH && stray != BACKSLASH
    ensures Parse(comment, stray) == Nothing
  {
    CommentIgnored([], comment, stray);
    assert [] + comment == comment;
    EmptyLine(stray);
  }

  lemma BodyEnds(l: Line)
    requires Writable(l)
    ensures Body(l) != [] && Body(l)[|Body(l)| - 1] ==
            if l.padding == [] then l.value[|l.value| - 1] else l.padding[|l.padding| - 1]
  {
    EscapedText(l.value);
  }

  /** Of a written line the scan removes the comment and nothing else. */
  lemma StrippedText(l: Line, stray: Byte)
    requires Writable(l) && !Glued(l)
    ensures Stripped(CString(Text(l)), stray) == Body(l)
  {
    BodyIsEscaped(l);
    BodyEnds(l);
    CommentStripped(Body(l), l.comment, stray);
  }

  lemma TabOrBlankIs(s: Bytes, from: nat, w: nat)
    requires from <= w < |s| && (s[w] == TAB || s[w] == BLANK)
    requires forall i :: from <= i < w ==> s[i] != TAB && s[i] != BLANK
    ensures FirstTabOrBlank(s, from) == w
    decreases w - from
  {
  }

  lemma CoreIsTrimmed(l: Line)
    requires Writable(l)
    ensures Trimmed(Body(l)) == Core(l)
  {
    var n, v, core := EscapeHash(l.name), EscapeHash(l.value), Core(l);
    EscapedText(l.name);
    EscapedText(l.value);
    assert core[0] == n[0] && core[|core| - 1] == v[|v| - 1];
    TrimPadded(l.lead, core, l.padding);
  }

  lemma CoreSplits(l: Line)
    requires Writable(l)
    ensures var n, v, core := EscapeHash(l.name), EscapeHash(l.value), Core(l);
      && FirstTabOrBlank(core, 0) == |n|
      && core[..|n|] == n && core[|n|..] == l.gap + v
  {
    var n, core := EscapeHash(l.name), Core(l);
    EscapedText(l.name);
    assert core[|n|] == l.gap[0];
    forall i | 0 <= i < |n| ensures core[i] != TAB && core[i] != BLANK {
      assert core[i] == n[i];
    }
    TabOrBlankIs(core, 0, |n|);
  }

  lemma PartsAreTrimmed(l: Line)
    requires Writable(l)
    ensures Trimmed(EscapeHash(l.name)) == EscapeHash(l.name) != []
    ensures Trimmed(l.gap + EscapeHash(l.value)) == EscapeHash(l.value) != []
  {
    var n, v := EscapeHash(l.name), EscapeHash(l.value);
    EscapedText(l.name);
    EscapedText(l.value);
    TrimPadded([], n, []);
    assert [] + n + [] == n;
    TrimPadded(l.gap, v, []);
    assert l.gap + v + [] == l.gap + v;
  }

  lemma ParseText(l: Line, stray: Byte)
    requires Writable(l) && !Glued(l)
    ensures Parse(Text(l), stray) == Meaning(l)
  {
    StrippedText(l, stray);
    CoreIsTrimmed(l);
    CoreSplits(l);
    PartsAreTrimmed(l);
    UnescapeHash(l.name);
    UnescapeHash(l.value);
  }

  // ----- a glued comment -----

  lemma EscapeEnding(s: Bytes)
    requires s != [] && s[|s| - 1] == BACKSLASH
    ensures EscapeHash(s) == EscapeHash(s[..|s| - 1]) + [BACKSLASH]
  {
    assert s == s[..|s| - 1] + [BACKSLASH];
    SubstAppend(s[..|s| - 1], [BACKSLASH], HASH, ESCAPED_HASH);
    SubstOne(BACKSLASH, HASH, ESCAPED_HASH);
  }

  /** The escaped comment sign becomes part of the value, in place of the backslash. */
  lemma SwallowedSign(value: Bytes, more: Bytes)
    requires value != [] && value[|value| - 1] == BACKSLASH && more != [] && more[0] == HASH
    ensures Replace(EscapeHash(value) + more, ESCAPED_HASH, [HASH]) != value
  {
    var v, w := value[..|value| - 1], [BACKSLASH] + more;
    EscapeEnding(value);
    Concat(EscapeHash(v), [BACKSLASH], more);
    UnescapeHashBefore(v, w);
    assert w == ESCAPED_HASH + more[1..];
    UnescapeSign(more[1..]);
    var r := v + Replace(w, ESCAPED_HASH, [HASH]);
    assert r[|v|] == HASH;
  }

  /** What the scan leaves of a glued line: the body and a part of the comment, its
      sign included. */
  lemma GluedStripped(l: Line, stray: Byte) returns (more: Bytes)
    requires Writable(l) && Glued(l)
    ensures Stripped(CString(Text(l)), stray) == Body(l) + more && more != [] && more[0] == HASH
  {
    BodyIsEscaped(l);
    BodyEnds(l);
    CStringAfter(Body(l), l.comment);
    var s, n := CString(Text(l)), |Body(l)|;
    var k := CommentStart(s, 0, stray);
    assert s == Body(l) + CString(l.comment) && s[n] == HASH && Escaped(s, n, stray);
    forall j | 0 <= j < n && s[j] == HASH ensures Escaped(s, j, stray) {
      assert Body(l)[j] == HASH;
    }
    var end := if k == -1 then |s| else k;
    more := s[n..end];
    assert s[..end] == Body(l) + more;
  }

  /** The end of a text without its trailing white space. */
  lemma {:induction false} TrimEnd(s: Bytes) returns (n: nat)
    requires s != [] && !IsBlank(s[0])
    ensures 0 < n <= |s| && !IsBlank(s[n - 1]) && AllBlank(s[n..])
  {
    n := |s|;
    if IsBlank(s[n - 1]) {
      n := TrimEnd(s[..n - 1]);
      forall i | 0 <= i < |s[n..]| ensures IsBlank(s[n..][i]) {
        assert i < |s| - 1 - n ==> s[n..][i] == s[..|s| - 1][n..][i];
      }
    }
  }

  lemma GluedSplits(l: Line, rest: Bytes)
    requires Writable(l)
    ensures var n, core := EscapeHash(l.name), Core(l) + rest;
      && FirstTabOrBlank(core, 0) == |n|
      && core[..|n|] == n && core[|n|..] == l.gap + (EscapeHash(l.value) + rest)
  {
    var n, core := EscapeHash(l.name), Core(l) + rest;
    EscapedText(l.name);
    assert core == n + (l.gap + (EscapeHash(l.value) + rest)) && core[|n|] == l.gap[0];
    forall i | 0 <= i < |n| ensures core[i] != TAB && core[i] != BLANK {
      assert core[i] == n[i];
    }
    TabOrBlankIs(core, 0, |n|);
  }

  lemma GluedPartsAreTrimmed(l: Line, rest: Bytes)
    requires Writable(l) && rest != [] && !IsBlank(rest[|rest| - 1])
    ensures var v := EscapeHash(l.value) + rest; Trimmed(l.gap + v) == v != []
  {
    var v := EscapeHash(l.value) + rest;
    EscapedText(l.value);
    assert v[0] == EscapeHash(l.value)[0] && v[|v| - 1] == rest[|rest| - 1];
    TrimPadded(l.gap, v, []);
    assert l.gap + v + [] == l.gap + v;
  }

  lemma Regroup(a: Bytes, b: Bytes, c: Bytes, d: Bytes)
    ensures a + b + [] + (c + d) == a + (b + c) + d
  {
  }

  lemma TrimGlued(lead: Bytes, core: Bytes, more: Bytes) returns (rest: Bytes)
    requires AllBlank(lead) && core != [] && !IsBlank(core[0]) && more != [] && !IsBlank(more[0])
    ensures Trimmed(lead + core + [] + more) == core + rest
    ensures rest != [] && rest[0] == more[0] && !IsBlank(rest[|rest| - 1])
  {
    var n := TrimEnd(more);
    rest := more[..n];
    TrimPadded(lead, core + rest, more[n..]);
    Regroup(lead, core, rest, more[n..]);
    assert more == rest + more[n..];
  }

  lemma GluedTrimmed(l: Line, more: Bytes) returns (rest: Bytes)
    requires Writable(l) && Glued(l) && more != [] && more[0] == HASH
    ensures Trimmed(Body(l) + more) == Core(l) + rest
    ensures rest != [] && rest[0] == HASH && !IsBlank(rest[|rest| - 1])
  {
    EscapedText(l.name);
    assert Core(l)[0] == EscapeHash(l.name)[0];
    rest := TrimGlued(l.lead, Core(l), more);
  }

  /** Whatever the line sets or includes, it is this. */
  predicate Says(p: Parsed, v: Bytes) { (p.Entry? ==> p.value == v) && (p.Include? ==> p.file == v) }

  lemma ValueOf(line: Bytes, stray: Byte, t: Bytes, at: nat, v: Bytes)
    requires t == Trimmed(Stripped(CString(line), stray)) && at < |t| && FirstTabOrBlank(t, 0) == at
    requires Trimmed(t[at..]) == v
    ensures Says(Parse(line, stray), Replace(v, ESCAPED_HASH, [HASH]))
  {
  }

  lemma GluedText(l: Line, stray: Byte) returns (rest: Bytes)
    requires Writable(l) && Glued(l)
    ensures Trimmed(Stripped(CString(Text(l)), stray)) == Core(l) + rest
    ensures rest != [] && rest[0] == HASH && !IsBlank(rest[|rest| - 1])
  {
    var more := GluedStripped(l, stray);
    rest := GluedTrimmed(l, more);
  }

  lemma GluedValue(l: Line, stray: Byte) returns (rest: Bytes)
    requires Writable(l) && Glued(l)
    ensures Says(Parse(Text(l), stray), Replace(EscapeHash(l.value) + rest, ESCAPED_HASH, [HASH]))
    ensures rest != [] && rest[0] == HASH
  {
    rest := GluedText(l, stray);
    GluedSplits(l, rest);
    GluedPartsAreTrimmed(l, rest);
    ValueOf(Text(l), stray, Core(l) + rest, |EscapeHash(l.name)|, EscapeHash(l.value) + rest);
  }

  lemma GluedIsMisread(l: Line, stray: Byte)
    requires Writable(l) && Glued(l)
    ensures Parse(Text(l), stray) != Meaning(l)
  {
    var rest := GluedValue(l, stray);
    SwallowedSign(l.value, rest);
    NotMeant(Parse(Text(l), stray), l, Replace(EscapeHash(l.value) + rest, ESCAPED_HASH, [HASH]));
  }

  lemma NotMeant(p: Parsed, l: Line, v: Bytes)
    requires Says(p, v) && v != l.value
    ensures p != Meaning(l)
  {
  }

  /** The parser undoes the printer, for every layout and any comment, if and only if
      the comment is not glued to a value that ends in a backslash. */
  lemma ParseTextIff(l: Line, stray: Byte)
    requires Writable(l)
    ensures Parse(Text(l), stray) == Meaning(l) <==> !Glued(l)
  {
    if Glued(l) {
      GluedIsMisread(l, stray);
    } else {
      ParseText(l, stray);
    }
  }
}
