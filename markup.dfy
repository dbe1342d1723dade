/** The cell cleaner applied to every value of a freshly fetched batch:
    non-text becomes the empty string; otherwise every tag-like run
    "<...>" (found left to right, shortest first, never across a line break)
    is deleted, every no-break space becomes a plain space, and surrounding
    whitespace is trimmed. */
module Markup {
  import opened Base

  const NBSP: char := '\U{A0}'

  /** Whitespace as the host language's string trimming understands it:
      the characters whose Unicode bidirectional class is WS, B or S, or
      whose category is Zs. */
  predicate IsSpace(c: char)
  {
    || c == '\t' || c == '\n' || c == '\U{B}' || c == '\U{C}' || c == '\r'
    || ('\U{1C}' <= c <= '\U{1F}') || c == ' ' || c == '\U{85}' || c == NBSP
    || c == '\U{1680}' || ('\U{2000}' <= c <= '\U{200A}') || c == '\U{2028}' || c == '\U{2029}'
    || c == '\U{202F}' || c == '\U{205F}' || c == '\U{3000}'
  }

  /** Where the tag opened by a '<' just before t ends: the index of the first
      '>' of t, provided no line break comes before it. */
  function CloseAt(t: string): (r: Option<nat>)
    ensures r.Some? ==> r.value < |t| && t[r.value] == '>'
    ensures r.Some? ==> forall k :: 0 <= k < r.value ==> t[k] != '>' && t[k] != '\n'
    ensures r.None? ==> forall k :: 0 <= k < |t| && t[k] == '>' ==> !NoBreakBefore(t, k)
  {
    if t == [] then None
    else if t[0] == '>' then Some(0)
    else if t[0] == '\n' then None
    else match CloseAt(t[1..])
      case None => None
      case Some(j) => Some(j + 1)
  }

  /** No line break occurs in t before index k. */
  predicate NoBreakBefore(t: string, k: nat)
    requires k <= |t|
  {
    forall m :: 0 <= m < k ==> t[m] != '\n'
  }

  /** Deletes every tag match, scanning left to right: a '<' that has a
      closing '>' on its line is dropped together with everything up to and
      including that '>', and scanning resumes after it. */
  function StripTags(s: string): (r: string)
    ensures |r| <= |s|
  {
    if s == [] then []
    else if s[0] == '<' && CloseAt(s[1..]).Some? then StripTags(s[CloseAt(s[1..]).value + 2..])
    else [s[0]] + StripTags(s[1..])
  }

  /** s holds no tag match: no '<' is followed by a '>' on the same line. */
  predicate NoTag(s: string)
  {
    forall i :: 0 <= i < |s| && s[i] == '<' ==> CloseAt(s[i + 1..]).None?
  }

  /** Replaces every no-break space by a plain space. */
  function ReplaceNbsp(s: string): (r: string)
    ensures |r| == |s|
    ensures forall i :: 0 <= i < |s| ==> r[i] == (if s[i] == NBSP then ' ' else s[i])
  {
    if s == [] then [] else [if s[0] == NBSP then ' ' else s[0]] + ReplaceNbsp(s[1..])
  }

  /** Drops leading whitespace: r is the suffix of s after its leading
      whitespace. */
  function TrimStart(s: string): (r: string)
    ensures |r| <= |s| && r == s[|s| - |r|..]
    ensures forall i :: 0 <= i < |s| - |r| ==> IsSpace(s[i])
    ensures r == [] || !IsSpace(r[0])
  {
    if s != [] && IsSpace(s[0]) then TrimStart(s[1..]) else s
  }

  /** Drops trailing whitespace: r is the prefix of s before its trailing
      whitespace. */
  function TrimEnd(s: string): (r: string)
    ensures |r| <= |s| && r == s[..|r|]
    ensures forall i :: |r| <= i < |s| ==> IsSpace(s[i])
    ensures r == [] || !IsSpace(r[|r| - 1])
  {
    if s != [] && IsSpace(s[|s| - 1]) then TrimEnd(s[..|s| - 1]) else s
  }

  function Strip(s: string): string
  {
    TrimEnd(TrimStart(s))
  }

  /** The cleaner. Its result is empty for non-text, never holds a no-break
      space, and neither starts nor ends with whitespace. */
  function Clean(v: Value): (r: string)
    ensures !v.Text? ==> r == ""
    ensures NBSP !in r
    ensures r == [] || (!IsSpace(r[0]) && !IsSpace(r[|r| - 1]))
  {
    match v
    case NonText => ""
    case Text(s) =>
      var t := ReplaceNbsp(StripTags(s));
      StripKeepsOut(t, NBSP);
      Strip(t)
  }

  /** Trimming adds no character. */
  lemma StripKeepsOut(t: string, c: char)
    requires c !in t
    ensures c !in Strip(t)
  {
    var u := TrimStart(t);
    assert forall i :: 0 <= i < |u| ==> u[i] == t[|t| - |u| + i];
    assert c !in u;
    var r := TrimEnd(u);
    assert forall i :: 0 <= i < |r| ==> r[i] == u[i];
  }

  // ---------------------------------------------------------------------
  // Why the cleaner is idempotent

  /** A '<' whose tag has no close keeps having no close after the rest of
      the line is stripped. */
  lemma {:induction false} NoCloseSurvivesStrip(s: string)
    requires CloseAt(s).None?
    ensures CloseAt(StripTags(s)).None?
  {
    if s != [] && s[0] != '\n' {
      assert s[0] != '>';
      assert CloseAt(s[1..]).None?;
      NoCloseSurvivesStrip(s[1..]);
      assert StripTags(s) == [s[0]] + StripTags(s[1..]);
      assert ([s[0]] + StripTags(s[1..]))[1..] == StripTags(s[1..]);
    }
  }

  lemma NoTagTail(c: char, t: string)
    requires NoTag([c] + t)
    ensures NoTag(t)
  {
    forall i | 0 <= i < |t| && t[i] == '<'
      ensures CloseAt(t[i + 1..]).None?
    {
      assert ([c] + t)[i + 1] == '<';
      assert ([c] + t)[i + 2..] == t[i + 1..];
    }
  }

  /** What tag removal leaves behind holds no tag. */
  lemma {:induction false} StripTagsLeavesNoTag(s: string)
    ensures NoTag(StripTags(s))
  {
    if s == [] {
    } else if s[0] == '<' && CloseAt(s[1..]).Some? {
      StripTagsLeavesNoTag(s[CloseAt(s[1..]).value + 2..]);
    } else {
      var rest := StripTags(s[1..]);
      StripTagsLeavesNoTag(s[1..]);
      var r := [s[0]] + rest;
      assert StripTags(s) == r;
      forall i | 0 <= i < |r| && r[i] == '<'
        ensures CloseAt(r[i + 1..]).None?
      {
        if i == 0 {
          assert CloseAt(s[1..]).None?;
          NoCloseSurvivesStrip(s[1..]);
          assert r[1..] == rest;
        } else {
          assert rest[i - 1] == '<';
          assert r[i + 1..] == rest[i..];
        }
      }
    }
  }

  /** Tag removal does nothing to a string without tags. */
  lemma {:induction false} StripTagsFixesNoTag(t: string)
    requires NoTag(t)
    ensures StripTags(t) == t
  {
    if t != [] {
      assert t == [t[0]] + t[1..];
      NoTagTail(t[0], t[1..]);
      StripTagsFixesNoTag(t[1..]);
    }
  }

  /** CloseAt looks only at where the '>' and line-break characters are. */
  lemma {:induction false} CloseAtShape(t: string, u: string)
    requires |t| == |u|
    requires forall k :: 0 <= k < |t| ==> (t[k] == '>') == (u[k] == '>') && (t[k] == '\n') == (u[k] == '\n')
    ensures CloseAt(t) == CloseAt(u)
  {
    if t != [] {
      CloseAtShape(t[1..], u[1..]);
    }
  }

  /** Cutting a string short cannot create a close. */
  lemma {:induction false} CloseAtPrefix(t: string, n: nat)
    requires n <= |t| && CloseAt(t).None?
    ensures CloseAt(t[..n]).None?
  {
    if n > 0 && t[0] != '\n' {
      assert t[..n][1..] == t[1..][..n - 1];
      CloseAtPrefix(t[1..], n - 1);
    }
  }

  lemma NoTagSlice(s: string, a: nat, b: nat)
    requires NoTag(s) && a <= b <= |s|
    ensures NoTag(s[a..b])
  {
    var t := s[a..b];
    forall i | 0 <= i < |t| && t[i] == '<'
      ensures CloseAt(t[i + 1..]).None?
    {
      assert s[a + i] == '<';
      assert t[i + 1..] == s[a + i + 1..][..b - a - i - 1];
      CloseAtPrefix(s[a + i + 1..], b - a - i - 1);
    }
  }

  lemma NoTagReplace(s: string)
    requires NoTag(s)
    ensures NoTag(ReplaceNbsp(s))
  {
    var r := ReplaceNbsp(s);
    forall i | 0 <= i < |r| && r[i] == '<'
      ensures CloseAt(r[i + 1..]).None?
    {
      CloseAtShape(s[i + 1..], r[i + 1..]);
    }
  }

  /** A cleaned value holds no tag. */
  lemma CleanLeavesNoTag(v: Value)
    ensures NoTag(Clean(v))
  {
    if v.Text? {
      var t := StripTags(v.text);
      StripTagsLeavesNoTag(v.text);
      var u := ReplaceNbsp(t);
      NoTagReplace(t);
      var w := TrimStart(u);
      NoTagSlice(u, |u| - |w|, |u|);
      var x := TrimEnd(w);
      NoTagSlice(w, 0, |x|);
    }
  }

  /** Cleaning an already cleaned value gives it back unchanged. */
  lemma CleanIdempotent(v: Value)
    ensures Clean(Text(Clean(v))) == Clean(v)
  {
    var t := Clean(v);
    CleanLeavesNoTag(v);
    StripTagsFixesNoTag(t);
    assert ReplaceNbsp(t) == t;
  }

  /** Text without any '<' passes tag removal untouched, whatever follows. */
  lemma {:induction false} StripTagsPlainPrefix(p: string, t: string)
    requires '<' !in p
    ensures StripTags(p + t) == p + StripTags(t)
  {
    if p != [] {
      assert (p + t)[0] == p[0] && (p + t)[1..] == p[1..] + t;
      assert StripTags(p + t) == [p[0]] + StripTags(p[1..] + t);
      StripTagsPlainPrefix(p[1..], t);
      assert p + StripTags(t) == [p[0]] + (p[1..] + StripTags(t));
    } else {
      assert p + t == t;
    }
  }

  lemma ReplaceNbspConcat(a: string, b: string)
    ensures ReplaceNbsp(a + b) == ReplaceNbsp(a) + ReplaceNbsp(b)
  {
    var l, r := ReplaceNbsp(a + b), ReplaceNbsp(a) + ReplaceNbsp(b);
    assert forall i :: 0 <= i < |l| ==> l[i] == r[i];
  }

  lemma ReplaceNbspFixes(w: string)
    requires NBSP !in w
    ensures ReplaceNbsp(w) == w
  {
  }

  /** A predicate for plain words: no tag brackets, no line break, no
      no-break space. */
  predicate Plain(w: string)
  {
    forall i :: 0 <= i < |w| ==> w[i] != '<' && w[i] != '>' && w[i] != '\n' && w[i] != NBSP
  }

  lemma BoldTagsRemoved(w: string, v: string)
    requires Plain(w) && Plain(v)
    ensures StripTags("<b>" + w + "</b>" + [NBSP] + v) == w + [NBSP] + v
  {
    var tail := [NBSP] + v;
    assert StripTags(tail) == tail by {
      StripTagsPlainPrefix(tail, []);
      assert tail + [] == tail;
    }
    var close := "</b>" + tail;
    assert CloseAt(close[1..]) == Some(2) by {
      assert close[3..][0] == '>';
      assert CloseAt(close[3..]) == Some(0);
      assert close[2..][0] == 'b' && close[2..][1..] == close[3..];
      assert CloseAt(close[2..]) == Some(1);
      assert close[1..][0] == '/' && close[1..][1..] == close[2..];
    }
    assert StripTags(close) == tail by {
      assert close[0] == '<';
      assert close[4..] == tail;
    }
    var s := "<b>" + (w + close);
    assert s == "<b>" + w + "</b>" + [NBSP] + v;
    StripTagsPlainPrefix(w, close);
    assert CloseAt(s[1..]) == Some(1) by {
      assert s[2..][0] == '>';
      assert CloseAt(s[2..]) == Some(0);
      assert s[1..][0] == 'b' && s[1..][1..] == s[2..];
    }
    assert s[3..] == w + close;
    assert w + tail == w + [NBSP] + v;
  }

  /** The no-break space between two plain words becomes a plain space. */
  lemma NbspBetweenWords(w: string, v: string)
    requires Plain(w) && Plain(v)
    ensures ReplaceNbsp(w + [NBSP] + v) == w + " " + v
  {
    ReplaceNbspConcat(w + [NBSP], v);
    ReplaceNbspConcat(w, [NBSP]);
    ReplaceNbspFixes(w);
    ReplaceNbspFixes(v);
  }

  /** Trimming leaves alone a string that neither starts nor ends with
      whitespace. */
  lemma StripUnpadded(r: string)
    requires r != [] && !IsSpace(r[0]) && !IsSpace(r[|r| - 1])
    ensures Strip(r) == r
  {
    assert TrimStart(r) == r;
  }

  /** The worked example, for any two words: a bold word, then a no-break
      space, then a second word, cleans to the two words joined by a plain
      space ("<b>Hello</b>" + no-break space + "World" gives "Hello World"). */
  lemma CleanBoldWord(w: string, v: string)
    requires Plain(w) && Plain(v) && w != [] && v != []
    requires !IsSpace(w[0]) && !IsSpace(v[|v| - 1])
    ensures Clean(Text("<b>" + w + "</b>" + [NBSP] + v)) == w + " " + v
  {
    var s := "<b>" + w + "</b>" + [NBSP] + v;
    BoldTagsRemoved(w, v);
    NbspBetweenWords(w, v);
    var r := w + " " + v;
    assert r[0] == w[0] && r[|r| - 1] == v[|v| - 1];
    StripUnpadded(r);
    assert Clean(Text(s)) == Strip(ReplaceNbsp(StripTags(s)));
  }
}
