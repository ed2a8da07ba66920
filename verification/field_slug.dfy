/** The form field's fallback identifier: the label lower-cased, with every
    maximal run of whitespace replaced by one `-`
    (`label.toLowerCase().replace(/\s+/g, '-')`). */
module FieldSlug {
  import opened Optional

  /** The characters the regular-expression class `\s` matches: the
      ECMAScript WhiteSpace and LineTerminator code points. */
  predicate IsWhitespace(c: char)
  {
    var k := c as int;
    || k == 0x09 || k == 0x0A || k == 0x0B || k == 0x0C || k == 0x0D || k == 0x20
    || k == 0xA0 || k == 0x1680 || (0x2000 <= k <= 0x200A)
    || k == 0x2028 || k == 0x2029 || k == 0x202F || k == 0x205F || k == 0x3000 || k == 0xFEFF
  }

  predicate NoWhitespace(s: string)
  {
    forall k :: 0 <= k < |s| ==> !IsWhitespace(s[k])
  }

  predicate AllWhitespace(s: string)
  {
    forall k :: 0 <= k < |s| ==> IsWhitespace(s[k])
  }

  predicate IsUpper(c: char)
  {
    'A' <= c <= 'Z'
  }

  /** Lower-casing of one character (ASCII letters only). */
  function LowerChar(c: char): (d: char)
    ensures !IsUpper(d)
    ensures IsWhitespace(d) <==> IsWhitespace(c)
    ensures !IsUpper(c) ==> d == c
    ensures d == '-' <==> c == '-'
  {
    if IsUpper(c) then (c as int + 32) as char else c
  }

  function Lower(s: string): (r: string)
    ensures |r| == |s|
    ensures forall k :: 0 <= k < |s| ==> r[k] == LowerChar(s[k])
  {
    seq(|s|, k requires 0 <= k < |s| => LowerChar(s[k]))
  }

  /** The text after the leading run of whitespace. */
  function SkipWhitespace(s: string): (r: string)
    ensures |r| <= |s| && r == s[|s| - |r|..]
    ensures AllWhitespace(s[..|s| - |r|])
    ensures r == [] || !IsWhitespace(r[0])
  {
    if s != [] && IsWhitespace(s[0]) then SkipWhitespace(s[1..]) else s
  }

  /** `replace(/\s+/g, '-')`: each maximal whitespace run becomes one `-`. */
  function Collapse(s: string): string
    decreases |s|
  {
    if s == [] then []
    else if IsWhitespace(s[0]) then "-" + Collapse(SkipWhitespace(s))
    else [s[0]] + Collapse(s[1..])
  }

  /** The identifier derived from a label: free of whitespace and never
      longer than the label. */
  function Slug(text: string): (r: string)
    ensures NoWhitespace(r) && |r| <= |text|
  {
    CollapseShape(Lower(text));
    Collapse(Lower(text))
  }

  /** The field's identifier: the `id` property when it is a non-empty
      string, the slug of the label otherwise. */
  function FieldId(id: Option<string>, text: string): (r: string)
    ensures id.Some? && id.value != "" ==> r == id.value
    ensures id.None? || id.value == "" ==> r == Slug(text)
  {
    if id.Some? && id.value != "" then id.value else Slug(text)
  }

  // ---------------------------------------------------------------------
  // Reference notions

  /** `s` without its whitespace. */
  function Erase(s: string): string
  {
    if s == [] then []
    else (if IsWhitespace(s[0]) then [] else [s[0]]) + Erase(s[1..])
  }

  /** `b` is `a` with some `-` characters inserted. */
  predicate DashesInserted(a: string, b: string)
    decreases |b|
  {
    if b == [] then a == []
    else
      || (a != [] && a[0] == b[0] && DashesInserted(a[1..], b[1..]))
      || (b[0] == '-' && DashesInserted(a, b[1..]))
  }

  // ---------------------------------------------------------------------
  // Properties

  lemma {:induction false} EraseSkipsWhitespace(s: string)
    ensures Erase(SkipWhitespace(s)) == Erase(s)
    decreases |s|
  {
    if s != [] && IsWhitespace(s[0]) {
      EraseSkipsWhitespace(s[1..]);
    }
  }

  /** The recursion of `Collapse` on a non-empty text. */
  lemma CollapseStep(s: string)
    requires s != []
    ensures IsWhitespace(s[0]) ==> Collapse(s) == "-" + Collapse(SkipWhitespace(s))
    ensures !IsWhitespace(s[0]) ==> Collapse(s) == [s[0]] + Collapse(s[1..])
    ensures IsWhitespace(s[0]) ==> |SkipWhitespace(s)| < |s|
  {
  }

  /** Collapsing leaves no whitespace and never lengthens the text. */
  lemma {:induction false} CollapseShape(s: string)
    ensures NoWhitespace(Collapse(s))
    ensures |Collapse(s)| <= |s|
    decreases |s|
  {
    if s != [] {
      CollapseStep(s);
      if IsWhitespace(s[0]) {
        CollapseShape(SkipWhitespace(s));
      } else {
        CollapseShape(s[1..]);
      }
    }
  }

  /** Collapsing keeps every non-whitespace character in order and only
      adds dashes. */
  lemma {:induction false} CollapseKeepsText(s: string)
    ensures DashesInserted(Erase(s), Collapse(s))
    decreases |s|
  {
    if s != [] {
      CollapseStep(s);
      var r := Collapse(s);
      if IsWhitespace(s[0]) {
        var t := SkipWhitespace(s);
        CollapseKeepsText(t);
        EraseSkipsWhitespace(s);
        assert r[1..] == Collapse(t);
      } else {
        CollapseKeepsText(s[1..]);
        assert r[1..] == Collapse(s[1..]);
        assert Erase(s) == [s[0]] + Erase(s[1..]);
      }
    }
  }

  /** Collapsing introduces no character other than `-`. */
  lemma {:induction false} CollapseChars(s: string)
    ensures forall c :: c in Collapse(s) ==> c == '-' || c in s
    decreases |s|
  {
    if s != [] {
      CollapseStep(s);
      if IsWhitespace(s[0]) {
        var t := SkipWhitespace(s);
        CollapseChars(t);
        assert forall c :: c in t ==> c in s;
      } else {
        CollapseChars(s[1..]);
        assert forall c :: c in s[1..] ==> c in s;
      }
    }
  }

  /** Lower-casing commutes with erasing whitespace. */
  lemma {:induction false} LowerErase(s: string)
    ensures Lower(Erase(s)) == Erase(Lower(s))
    decreases |s|
  {
    if s != [] {
      LowerErase(s[1..]);
      assert Lower(s)[1..] == Lower(s[1..]);
      assert Lower(Erase(s)) == Lower(if IsWhitespace(s[0]) then [] else [s[0]]) + Lower(Erase(s[1..]));
    }
  }

  /** The slug has no whitespace, is no longer than the label, and is the
      label's non-whitespace characters, lower-cased and in order, with
      dashes inserted. */
  lemma SlugSpec(text: string)
    ensures NoWhitespace(Slug(text))
    ensures |Slug(text)| <= |text|
    ensures DashesInserted(Lower(Erase(text)), Slug(text))
  {
    CollapseShape(Lower(text));
    CollapseKeepsText(Lower(text));
    LowerErase(text);
  }

  /** Whitespace-free text collapses to itself. */
  lemma {:induction false} CollapseNoWhitespace(s: string)
    requires NoWhitespace(s)
    ensures Collapse(s) == s
    decreases |s|
  {
    if s != [] {
      CollapseNoWhitespace(s[1..]);
    }
  }

  /** A label without whitespace turns into its lower-case form. */
  lemma SlugOfWord(text: string)
    requires NoWhitespace(text)
    ensures Slug(text) == Lower(text)
  {
    CollapseNoWhitespace(Lower(text));
  }

  /** The slug is lower-case and whitespace-free, so slugging it again
      changes nothing. */
  lemma SlugIdempotent(text: string)
    ensures Slug(Slug(text)) == Slug(text)
  {
    var s := Slug(text);
    CollapseShape(Lower(text));
    CollapseChars(Lower(text));
    assert forall k :: 0 <= k < |s| ==> !IsUpper(s[k]) by {
      forall k | 0 <= k < |s|
        ensures !IsUpper(s[k])
      {
        assert s[k] in s;
        if s[k] != '-' {
          var j :| 0 <= j < |text| && Lower(text)[j] == s[k];
        }
      }
    }
    assert Lower(s) == s;
    CollapseNoWhitespace(s);
  }

  /** Skipping a whitespace run and then the rest. */
  lemma {:induction false} SkipRunThenText(w: string, b: string)
    requires AllWhitespace(w)
    requires b == [] || !IsWhitespace(b[0])
    ensures SkipWhitespace(w + b) == b
    decreases |w|
  {
    if w != [] {
      assert (w + b)[1..] == w[1..] + b;
      SkipRunThenText(w[1..], b);
    } else {
      assert w + b == b;
    }
  }

  /** Skipping the leading whitespace of a text that does not end in
      whitespace stays within that text. */
  lemma {:induction false} SkipWithinText(a: string, rest: string)
    requires a != [] && !IsWhitespace(a[|a| - 1])
    ensures SkipWhitespace(a + rest) == SkipWhitespace(a) + rest
    ensures SkipWhitespace(a) != []
    decreases |a|
  {
    if IsWhitespace(a[0]) {
      assert |a| > 1;
      assert (a + rest)[1..] == a[1..] + rest;
      SkipWithinText(a[1..], rest);
    }
  }

  /** Collapsing is compositional: two texts joined by a whitespace run
      collapse to their collapses joined by one dash. */
  lemma {:induction false} CollapseJoin(a: string, w: string, b: string)
    requires a == [] || !IsWhitespace(a[|a| - 1])
    requires w != [] && AllWhitespace(w)
    requires b == [] || !IsWhitespace(b[0])
    ensures Collapse(a + w + b) == Collapse(a) + "-" + Collapse(b)
    decreases |a|, 1
  {
    if a == [] {
      var s := a + w + b;
      assert s == w + b;
      SkipRunThenText(w, b);
      CollapseStep(s);
      assert Collapse(a) == [];
    } else if IsWhitespace(a[0]) {
      CollapseJoinRun(a, w, b);
    } else {
      CollapseJoinChar(a, w, b);
    }
  }

  /** `CollapseJoin` when the first text opens with whitespace. */
  lemma {:induction false} CollapseJoinRun(a: string, w: string, b: string)
    requires a != [] && IsWhitespace(a[0]) && !IsWhitespace(a[|a| - 1])
    requires w != [] && AllWhitespace(w)
    requires b == [] || !IsWhitespace(b[0])
    ensures Collapse(a + w + b) == Collapse(a) + "-" + Collapse(b)
    decreases |a|, 0
  {
    var s := a + w + b;
    var cb := Collapse(b);
    var t := SkipWhitespace(a);
    JoinSkip(a, w, b);
    CollapseJoin(t, w, b);
    var ct := Collapse(t);
    assert s[0] == a[0];
    assert Collapse(s) == "-" + Collapse(t + w + b) by {
      CollapseStep(s);
    }
    assert Collapse(a) == "-" + ct by {
      CollapseStep(a);
    }
    ConcatRegroup("-", ct, "-", cb);
  }

  /** `CollapseJoin` when the first text opens with a visible character. */
  lemma {:induction false} CollapseJoinChar(a: string, w: string, b: string)
    requires a != [] && !IsWhitespace(a[0]) && !IsWhitespace(a[|a| - 1])
    requires w != [] && AllWhitespace(w)
    requires b == [] || !IsWhitespace(b[0])
    ensures Collapse(a + w + b) == Collapse(a) + "-" + Collapse(b)
    decreases |a|, 0
  {
    var s := a + w + b;
    var cb := Collapse(b);
    CollapseStep(s);
    CollapseStep(a);
    assert s[0] == a[0];
    var a' := a[1..];
    JoinTail(a, w, b);
    CollapseJoin(a', w, b);
    var ca' := Collapse(a');
    assert Collapse(s) == [a[0]] + Collapse(a' + w + b);
    assert Collapse(a) == [a[0]] + ca';
    ConcatRegroup([a[0]], ca', "-", cb);
  }

  lemma ConcatRegroup(x: string, y: string, z: string, u: string)
    ensures x + (y + z + u) == (x + y) + z + u
  {
  }

  /** The step of `CollapseJoinChar`. */
  lemma JoinTail(a: string, w: string, b: string)
    requires a != [] && !IsWhitespace(a[|a| - 1])
    ensures (a + w + b)[1..] == a[1..] + w + b
    ensures a[1..] == [] || !IsWhitespace(a[1..][|a[1..]| - 1])
  {
    assert a[1..] == [] || a[1..][|a[1..]| - 1] == a[|a| - 1];
  }

  /** The step of `CollapseJoinRun`. */
  lemma JoinSkip(a: string, w: string, b: string)
    requires a != [] && IsWhitespace(a[0]) && !IsWhitespace(a[|a| - 1])
    ensures var t := SkipWhitespace(a);
      && SkipWhitespace(a + w + b) == t + w + b
      && |t| < |a|
      && t != [] && !IsWhitespace(t[|t| - 1])
  {
    SkipWithinText(a, w + b);
    var t := SkipWhitespace(a);
    assert a + w + b == a + (w + b);
    assert t + (w + b) == t + w + b;
    assert t[|t| - 1] == a[|a| - 1];
  }

  /** Two labels joined by a whitespace run slug to their slugs joined by
      one dash. Either part may be empty, so leading and trailing runs are
      covered too (`Slug(" a") == "-a"`); together with `SlugOfWord`,
      induction on the number of runs fixes the slug of every label. */
  lemma SlugJoin(a: string, w: string, b: string)
    requires a == [] || !IsWhitespace(a[|a| - 1])
    requires w != [] && AllWhitespace(w)
    requires b == [] || !IsWhitespace(b[0])
    ensures Slug(a + w + b) == Slug(a) + "-" + Slug(b)
  {
    assert Lower(a + w + b) == Lower(a) + Lower(w) + Lower(b);
    CollapseJoin(Lower(a), Lower(w), Lower(b));
  }
}
