/**
 The textual form of an edge, `"s->t"`: how labels are built with
 `"->".join([s, t])`, taken apart with `s, t = x.split("->")`, and how a line
 of an edge file is trimmed with `str.strip()` before it is split.
 */
module EdgeLabel {

  datatype Option<T> = None | Some(value: T)

  /** `"->".join([s, t])` */
  function Join(s: string, t: string): (r: string)
  {
    s + "->" + t
  }

  /** The separator `"->"` starts at position `i` of `x`. */
  predicate ArrowAt(x: string, i: int)
  {
    0 <= i && i + 1 < |x| && x[i] == '-' && x[i + 1] == '>'
  }

  predicate NoArrow(s: string)
  {
    forall i | 0 <= i < |s| :: !ArrowAt(s, i)
  }

  /** The first separator at or after position `from`, if there is one. */
  function FindArrow(x: string, from: nat): (r: Option<nat>)
    ensures r.Some? ==> from <= r.value && ArrowAt(x, r.value)
    ensures r.Some? ==> forall i :: from <= i < r.value ==> !ArrowAt(x, i)
    ensures r.None? ==> forall i :: from <= i ==> !ArrowAt(x, i)
    decreases |x| - from
  {
    if from + 1 >= |x| then None
    else if ArrowAt(x, from) then Some(from)
    else FindArrow(x, from + 1)
  }

  /** The search from `from` finds `k` when `k` holds a separator and nothing between them does. */
  lemma {:induction false} FindArrowAt(x: string, from: nat, k: nat)
    requires from <= k && ArrowAt(x, k)
    requires forall i :: from <= i < k ==> !ArrowAt(x, i)
    ensures FindArrow(x, from) == Some(k)
    decreases k - from
  {
    if from < k {
      FindArrowAt(x, from + 1, k);
    }
  }

  /**
   `s, t = x.split("->")`: Python's split cuts at every separator, and the
   unpacking into two names succeeds only when there was exactly one.
   `None` stands for the ValueError raised otherwise.
   */
  function Split(x: string): (r: Option<(string, string)>)
  {
    match FindArrow(x, 0)
    case None => None
    case Some(i) =>
      if FindArrow(x, i + 2).None? then Some((x[..i], x[i + 2..])) else None
  }

  /** Where the separators of `Join(s, t)` are: those of `s`, the joining one, those of `t`. */
  lemma ArrowsOfJoin(s: string, t: string, i: int)
    ensures ArrowAt(Join(s, t), i) <==>
      (i < |s| - 1 && ArrowAt(s, i)) || i == |s| || (i >= |s| + 2 && ArrowAt(t, i - |s| - 2))
  {
    var x := Join(s, t);
    assert |x| == |s| + 2 + |t|;
    if 0 <= i && i + 1 < |x| {
      if i < |s| - 1 {
        assert x[i] == s[i] && x[i + 1] == s[i + 1];
      } else if i == |s| - 1 {
        assert x[i + 1] == '-';
      } else if i == |s| + 1 {
        assert x[i] == '>';
      } else if i >= |s| + 2 {
        assert x[i] == t[i - |s| - 2] && x[i + 1] == t[i - |s| - 1];
      }
    }
  }

  /** A joined label splits back into its two parts exactly when neither part holds the separator. */
  lemma SplitJoin(s: string, t: string)
    ensures Split(Join(s, t)) == if NoArrow(s) && NoArrow(t) then Some((s, t)) else None
  {
    var x := Join(s, t);
    forall i ensures ArrowAt(x, i) <==>
      (i < |s| - 1 && ArrowAt(s, i)) || i == |s| || (i >= |s| + 2 && ArrowAt(t, i - |s| - 2))
    {
      ArrowsOfJoin(s, t, i);
    }
    if NoArrow(s) && NoArrow(t) {
      FindArrowAt(x, 0, |s|);
      assert FindArrow(x, |s| + 2).None?;
      assert x[..|s|] == s && x[|s| + 2..] == t;
    } else if !NoArrow(s) {
      var k :| 0 <= k < |s| && ArrowAt(s, k);
      ArrowsOfJoin(s, t, k);
      var i := FindArrow(x, 0).value;
      assert i <= k < |s| - 1;
      assert ArrowAt(x, |s|);
    } else {
      var k :| 0 <= k < |t| && ArrowAt(t, k);
      ArrowsOfJoin(s, t, k + |s| + 2);
      FindArrowAt(x, 0, |s|);
    }
  }

  /** Whatever splits is the join of its two parts, and neither part holds the separator. */
  lemma SplitSound(x: string)
    requires Split(x).Some?
    ensures x == Join(Split(x).value.0, Split(x).value.1)
    ensures NoArrow(Split(x).value.0) && NoArrow(Split(x).value.1)
  {
    var i := FindArrow(x, 0).value;
    var s, t := x[..i], x[i + 2..];
    assert x == Join(s, t);
    SplitJoin(s, t);
  }

  /** The characters Python's `str.isspace` accepts, which `str.strip()` removes. */
  predicate IsSpace(c: char)
  {
    ('\U{0009}' <= c <= '\U{000D}') || ('\U{001C}' <= c <= '\U{001F}') || c == ' ' ||
    c == '\U{0085}' || c == '\U{00A0}' || c == '\U{1680}' || ('\U{2000}' <= c <= '\U{200A}') ||
    c == '\U{2028}' || c == '\U{2029}' || c == '\U{202F}' || c == '\U{205F}' || c == '\U{3000}'
  }

  /** Drops the whitespace at the front. */
  function StripStart(s: string): (r: string)
  {
    if s != [] && IsSpace(s[0]) then StripStart(s[1..]) else s
  }

  /** Drops the whitespace at the back. */
  function StripEnd(s: string): (r: string)
  {
    if s != [] && IsSpace(s[|s| - 1]) then StripEnd(s[..|s| - 1]) else s
  }

  /** `StripStart` keeps a suffix, cuts off only whitespace, and stops at the first other character. */
  lemma {:induction false} StripStartSpec(s: string)
    ensures |StripStart(s)| <= |s| && StripStart(s) == s[|s| - |StripStart(s)|..]
    ensures StripStart(s) != [] ==> !IsSpace(StripStart(s)[0])
    ensures forall i :: 0 <= i < |s| - |StripStart(s)| ==> IsSpace(s[i])
  {
    if s != [] && IsSpace(s[0]) {
      StripStartSpec(s[1..]);
      var r := StripStart(s[1..]);
      forall i | 0 <= i < |s| - |r| ensures IsSpace(s[i]) {
        if i > 0 {
          assert s[i] == s[1..][i - 1];
        }
      }
    }
  }

  /** `StripEnd` keeps a prefix, cuts off only whitespace, and stops at the last other character. */
  lemma {:induction false} StripEndSpec(s: string)
    ensures |StripEnd(s)| <= |s| && StripEnd(s) == s[..|StripEnd(s)|]
    ensures StripEnd(s) != [] ==> !IsSpace(StripEnd(s)[|StripEnd(s)| - 1])
    ensures forall i :: |StripEnd(s)| <= i < |s| ==> IsSpace(s[i])
  {
    if s != [] && IsSpace(s[|s| - 1]) {
      StripEndSpec(s[..|s| - 1]);
      var r := StripEnd(s[..|s| - 1]);
      forall i | |r| <= i < |s| ensures IsSpace(s[i]) {
        if i < |s| - 1 {
          assert s[i] == s[..|s| - 1][i];
        }
      }
    }
  }

  /** `s.strip()`: the longest infix of `s` that neither starts nor ends with whitespace. */
  function Strip(s: string): (r: string)
  {
    StripEnd(StripStart(s))
  }

  /**
   What `strip` keeps: a contiguous part `s[a..a + |r|]` of the line that
   neither starts nor ends with whitespace, with only whitespace outside it.
   */
  lemma StripSpec(s: string)
    ensures exists a :: StrippedAt(s, a, Strip(s))
    ensures Strip(s) != [] ==> !IsSpace(Strip(s)[0]) && !IsSpace(Strip(s)[|Strip(s)| - 1])
  {
    StripStartSpec(s);
    var u := StripStart(s);
    StripEndSpec(u);
    var r := StripEnd(u);
    var a := |s| - |u|;
    assert r == s[a..a + |r|];
    forall i | a + |r| <= i < |s| ensures IsSpace(s[i]) {
      assert s[i] == u[i - a];
    }
    assert Strip(s) == r && StrippedAt(s, a, Strip(s));
  }

  /** `r` is `s[a..a + |r|]` and everything of `s` around it is whitespace. */
  predicate StrippedAt(s: string, a: int, r: string)
  {
    0 <= a <= a + |r| <= |s| && r == s[a..a + |r|] &&
    (forall i :: 0 <= i < a ==> IsSpace(s[i])) &&
    (forall i :: a + |r| <= i < |s| ==> IsSpace(s[i]))
  }
}
