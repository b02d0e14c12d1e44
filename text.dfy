/**
 * The JavaScript string primitives the booking code relies on: the `\s` class
 * (which is also what `String.prototype.trim` removes), `trim`, the
 * `replace(/\s+/g, ' ')` collapse, case mapping, `includes` and `length`
 * (which counts UTF-16 code units, not characters).
 */
module Text {

  /** The characters of JavaScript's `\s` class: WhiteSpace and LineTerminator. */
  predicate IsSpace(c: char)
  {
    || c == '\t' || c == '\n' || c == '\U{000B}' || c == '\U{000C}' || c == '\r'
    || c == ' ' || c == '\U{00A0}' || c == '\U{1680}'
    || ('\U{2000}' <= c <= '\U{200A}')
    || c == '\U{2028}' || c == '\U{2029}' || c == '\U{202F}' || c == '\U{205F}'
    || c == '\U{3000}' || c == '\U{FEFF}'
  }

  /** The characters of JavaScript's `\d` class (ASCII digits only). */
  predicate IsDigit(c: char)
  {
    '0' <= c <= '9'
  }

  predicate AllDigits(s: string)
  {
    forall i :: 0 <= i < |s| ==> IsDigit(s[i])
  }

  predicate NoSpaces(s: string)
  {
    forall i :: 0 <= i < |s| ==> !IsSpace(s[i])
  }

  /** `s` with its leading whitespace removed. */
  function TrimStart(s: string): (r: string)
    ensures |r| <= |s|
    ensures |r| == |s| ==> r == s
    ensures |r| < |s| ==> r == s[|s| - |r|..]
    ensures forall i :: 0 <= i < |s| - |r| ==> IsSpace(s[i])
    ensures r != [] ==> !IsSpace(r[0])
  {
    if s != [] && IsSpace(s[0]) then TrimStart(s[1..]) else s
  }

  /** `s` with its trailing whitespace removed. */
  function TrimEnd(s: string): (r: string)
    ensures |r| <= |s| && r == s[..|r|]
    ensures forall i :: |r| <= i < |s| ==> IsSpace(s[i])
    ensures r != [] ==> !IsSpace(r[|r| - 1])
  {
    if s != [] && IsSpace(s[|s| - 1]) then TrimEnd(s[..|s| - 1]) else s
  }

  /** No whitespace at either end. */
  predicate IsTrimmed(s: string)
  {
    s == [] || (!IsSpace(s[0]) && !IsSpace(s[|s| - 1]))
  }

  /** `String.prototype.trim`: no whitespace is left at either end. */
  function Trim(s: string): (r: string)
    ensures |r| <= |s|
    ensures IsTrimmed(r)
  {
    var t := TrimStart(s);
    var r := TrimEnd(t);
    assert r != [] ==> r[0] == t[0];
    r
  }

  /**
   * `r` is what is left of `s` once `k` characters of whitespace are cut from
   * its front and whitespace only from its back.
   */
  predicate IsTrimCut(s: string, k: int, r: string)
  {
    && 0 <= k && k + |r| <= |s|
    && (forall i :: 0 <= i < |r| ==> r[i] == s[k + i])
    && (forall i :: 0 <= i < k ==> IsSpace(s[i]))
    && (forall i :: k + |r| <= i < |s| ==> IsSpace(s[i]))
  }

  /** What `Trim` cuts: the whitespace before offset `k` and after the kept characters, nothing else. */
  lemma TrimIsSlice(s: string)
    ensures IsTrimCut(s, |s| - |TrimStart(s)|, Trim(s))
  {
    var t := TrimStart(s);
    if |t| == |s| {
      EndCut(s);
    } else {
      assert t == s[|s| - |t|..];
      KeptPrefix(s, t, TrimEnd(t));
    }
  }

  /** `trim` yields the empty text exactly when the text is whitespace only. */
  lemma TrimEmptyIff(s: string)
    ensures Trim(s) == [] <==> forall i :: 0 <= i < |s| ==> IsSpace(s[i])
  {
    TrimIsSlice(s);
    var k := |s| - |TrimStart(s)|;
    if Trim(s) != [] {
      assert Trim(s)[0] == s[k + 0];
    }
  }

  /** With nothing cut from the front, `TrimEnd` keeps a prefix and cuts whitespace only. */
  lemma EndCut(s: string)
    ensures IsTrimCut(s, 0, TrimEnd(s))
  {
  }

  /** A prefix `r` of a proper suffix `t` of `s`, where `s` starts and `t` goes on with whitespace only. */
  lemma KeptPrefix(s: string, t: string, r: string)
    requires |t| < |s| && t == s[|s| - |t|..]
    requires forall i :: 0 <= i < |s| - |t| ==> IsSpace(s[i])
    requires |r| <= |t| && r == t[..|r|]
    requires forall i :: |r| <= i < |t| ==> IsSpace(t[i])
    ensures IsTrimCut(s, |s| - |t|, r)
  {
    var k := |s| - |t|;
    forall i | 0 <= i < |r|
      ensures r[i] == s[k + i]
    {
      assert r[i] == t[i];
    }
    forall i | k + |r| <= i < |s|
      ensures IsSpace(s[i])
    {
      assert s[i] == t[i - k];
    }
  }

  lemma TrimStartOfTrimmed(s: string)
    requires s == [] || !IsSpace(s[0])
    ensures TrimStart(s) == s
  {
  }

  lemma TrimEndOfTrimmed(s: string)
    requires s == [] || !IsSpace(s[|s| - 1])
    ensures TrimEnd(s) == s
  {
  }

  /** A text with no whitespace at either end is its own trim. */
  lemma TrimOfTrimmed(s: string)
    requires IsTrimmed(s)
    ensures Trim(s) == s
  {
    TrimStartOfTrimmed(s);
    TrimEndOfTrimmed(s);
  }

  /** Trimming twice is trimming once: the fields the dialogue stores are fixed points of `Trim`. */
  lemma TrimIdempotent(s: string)
    ensures Trim(Trim(s)) == Trim(s)
  {
    TrimOfTrimmed(Trim(s));
  }

  /** `s.replace(/\s+/g, ' ')`: every maximal run of whitespace becomes one space. */
  function CollapseSpaces(s: string): (r: string)
    ensures forall i :: 0 <= i < |r| && IsSpace(r[i]) ==> r[i] == ' '
    ensures forall i :: 0 <= i < |r| - 1 ==> !IsSpace(r[i]) || !IsSpace(r[i + 1])
    ensures r != [] && s != [] ==> (IsSpace(r[0]) <==> IsSpace(s[0]))
    decreases |s|
  {
    if s == [] then []
    else if IsSpace(s[0]) then
      var rest := TrimStart(s);
      assert |rest| < |s|;
      var tail := CollapseSpaces(rest);
      assert tail != [] ==> !IsSpace(tail[0]);
      [' '] + tail
    else
      [s[0]] + CollapseSpaces(s[1..])
  }

  /** A text whose only whitespace is single plain spaces is left as it is by the collapse. */
  lemma {:induction false} CollapseOfCollapsed(s: string)
    requires forall i :: 0 <= i < |s| && IsSpace(s[i]) ==> s[i] == ' '
    requires forall i :: 0 <= i < |s| - 1 ==> !IsSpace(s[i]) || !IsSpace(s[i + 1])
    ensures CollapseSpaces(s) == s
    decreases |s|
  {
    if s == [] {
    } else if IsSpace(s[0]) {
      var rest := TrimStart(s);
      assert rest == s[1..] by {
        assert s[1..] == [] || !IsSpace(s[1..][0]);
        TrimStartOfTrimmed(s[1..]);
      }
      CollapseOfCollapsed(s[1..]);
      assert CollapseSpaces(s) == [' '] + s[1..];
    } else {
      CollapseOfCollapsed(s[1..]);
    }
  }

  /** `s` with every whitespace character removed: the text the collapse must keep. */
  function DropSpaces(s: string): (r: string)
    ensures |r| <= |s| && NoSpaces(r)
  {
    if s == [] then [] else (if IsSpace(s[0]) then [] else [s[0]]) + DropSpaces(s[1..])
  }

  /** Leading whitespace carries no text. */
  lemma {:induction false} DropSpacesOfTrimStart(s: string)
    ensures DropSpaces(TrimStart(s)) == DropSpaces(s)
    decreases |s|
  {
    if s != [] && IsSpace(s[0]) {
      DropSpacesOfTrimStart(s[1..]);
    }
  }

  /** The collapse keeps every character that is not whitespace, in order, and adds none. */
  lemma {:induction false} CollapseKeepsText(s: string)
    ensures DropSpaces(CollapseSpaces(s)) == DropSpaces(s)
    decreases |s|
  {
    if s == [] {
    } else if IsSpace(s[0]) {
      var rest := TrimStart(s);
      CollapseKeepsText(rest);
      DropSpacesOfTrimStart(s);
      assert ([' '] + CollapseSpaces(rest))[1..] == CollapseSpaces(rest);
    } else {
      CollapseKeepsText(s[1..]);
      assert ([s[0]] + CollapseSpaces(s[1..]))[1..] == CollapseSpaces(s[1..]);
    }
  }

  /** A run of whitespace in front of text that does not start with whitespace is skipped as a whole. */
  lemma {:induction false} TrimStartOfRun(w: string, t: string)
    requires forall i :: 0 <= i < |w| ==> IsSpace(w[i])
    requires t == [] || !IsSpace(t[0])
    ensures TrimStart(w + t) == t
    decreases |w|
  {
    if w == [] {
      assert w + t == t;
      TrimStartOfTrimmed(t);
    } else {
      assert (w + t)[1..] == w[1..] + t;
      TrimStartOfRun(w[1..], t);
    }
  }

  /** A non-empty whitespace run becomes exactly one space, and the text after it is collapsed in turn. */
  lemma CollapseRun(w: string, t: string)
    requires w != [] && forall i :: 0 <= i < |w| ==> IsSpace(w[i])
    requires t == [] || !IsSpace(t[0])
    ensures CollapseSpaces(w + t) == " " + CollapseSpaces(t)
  {
    assert (w + t)[0] == w[0];
    TrimStartOfRun(w, t);
  }

  /**
   * A character that is not whitespace is kept and the collapse goes on after
   * it. With `CollapseRun` this fixes the collapse of every text, one run or
   * character at a time.
   */
  lemma CollapseKeepsChar(c: char, t: string)
    requires !IsSpace(c)
    ensures CollapseSpaces([c] + t) == [c] + CollapseSpaces(t)
  {
    assert ([c] + t)[1..] == t;
  }

  /** Leading whitespace of a text that holds a non-space character ends inside that text. */
  lemma {:induction false} TrimStartAppend(a: string, u: string)
    requires a != [] && !IsSpace(a[|a| - 1])
    ensures TrimStart(a + u) == TrimStart(a) + u
    decreases |a|
  {
    if IsSpace(a[0]) {
      assert (a + u)[1..] == a[1..] + u;
      TrimStartAppend(a[1..], u);
    } else {
      assert (a + u)[0] == a[0];
    }
  }

  /** One step of the collapse over a text that starts with whitespace and ends with a non-space, followed by `u`. */
  lemma CollapseLeadingRun(a: string, u: string)
    requires a != [] && IsSpace(a[0]) && !IsSpace(a[|a| - 1])
    ensures CollapseSpaces(a + u) == [' '] + CollapseSpaces(TrimStart(a) + u)
    ensures CollapseSpaces(a) == [' '] + CollapseSpaces(TrimStart(a))
    ensures TrimStart(a) != [] && TrimStart(a)[|TrimStart(a)| - 1] == a[|a| - 1] && |TrimStart(a)| < |a|
  {
    TrimStartAppend(a, u);
    assert (a + u)[0] == a[0];
  }

  /**
   * An interior whitespace run, after a text that ends in a non-space and
   * before one that does not start with whitespace, becomes one space.
   */
  lemma {:induction false} CollapseInteriorRun(a: string, w: string, t: string)
    requires a == [] || !IsSpace(a[|a| - 1])
    requires w != [] && forall i :: 0 <= i < |w| ==> IsSpace(w[i])
    requires t == [] || !IsSpace(t[0])
    ensures CollapseSpaces(a + w + t) == CollapseSpaces(a) + " " + CollapseSpaces(t)
    decreases |a|, 1
  {
    if a == [] {
      assert a + w + t == w + t;
      CollapseRun(w, t);
    } else if IsSpace(a[0]) {
      InteriorRunAfterSpace(a, w, t);
    } else {
      InteriorRunAfterChar(a, w, t);
    }
  }

  /** `CollapseInteriorRun` when `a` starts with whitespace: its leading run becomes one space first. */
  lemma {:induction false} InteriorRunAfterSpace(a: string, w: string, t: string)
    requires a != [] && IsSpace(a[0]) && !IsSpace(a[|a| - 1])
    requires w != [] && forall i :: 0 <= i < |w| ==> IsSpace(w[i])
    requires t == [] || !IsSpace(t[0])
    ensures CollapseSpaces(a + w + t) == CollapseSpaces(a) + " " + CollapseSpaces(t)
    decreases |a|, 0
  {
    var rest := TrimStart(a);
    CollapseLeadingRun(a, w + t);
    CollapseInteriorRun(rest, w, t);
    Regroup(a, w, t);
    Regroup(rest, w, t);
    ConsRegroup(' ', CollapseSpaces(rest), CollapseSpaces(t));
  }

  /** `CollapseInteriorRun` when `a` starts with a non-space: that character is kept first. */
  lemma {:induction false} InteriorRunAfterChar(a: string, w: string, t: string)
    requires a != [] && !IsSpace(a[0]) && !IsSpace(a[|a| - 1])
    requires w != [] && forall i :: 0 <= i < |w| ==> IsSpace(w[i])
    requires t == [] || !IsSpace(t[0])
    ensures CollapseSpaces(a + w + t) == CollapseSpaces(a) + " " + CollapseSpaces(t)
    decreases |a|, 0
  {
    var rest := a[1..];
    CollapseLeadingChar(a, w + t);
    Regroup(a, w, t);
    Regroup(rest, w, t);
    CollapseInteriorRun(rest, w, t);
    ConsRegroup(a[0], CollapseSpaces(rest), CollapseSpaces(t));
  }

  /** One step of the collapse over a text that starts with a non-space, followed by `u`. */
  lemma CollapseLeadingChar(a: string, u: string)
    requires a != [] && !IsSpace(a[0])
    ensures CollapseSpaces(a + u) == [a[0]] + CollapseSpaces(a[1..] + u)
    ensures CollapseSpaces(a) == [a[0]] + CollapseSpaces(a[1..])
    ensures |a| > 1 ==> a[1..][|a| - 2] == a[|a| - 1]
  {
    HeadSplit(a, u);
    CollapseKeepsChar(a[0], a[1..]);
    CollapseKeepsChar(a[0], a[1..] + u);
  }

  /** Concatenation regrouped. */
  lemma Regroup(a: string, w: string, t: string)
    ensures a + w + t == a + (w + t)
  {
  }

  /** A non-empty text is its first character followed by the rest. */
  lemma HeadSplit(a: string, u: string)
    requires a != []
    ensures a == [a[0]] + a[1..] && a + u == [a[0]] + (a[1..] + u)
  {
  }

  /** Concatenation regrouped around a leading character and a space. */
  lemma ConsRegroup(c: char, x: string, y: string)
    ensures [c] + (x + " " + y) == [c] + x + " " + y
  {
  }

  /** Upper case for the ASCII letters; every other character is kept. */
  function UpperChar(c: char): char
  {
    if 'a' <= c <= 'z' then (c as int - 32) as char else c
  }

  /** Lower case for the ASCII letters and the Kelvin sign (which `toLowerCase` maps to `k`). */
  function LowerChar(c: char): char
  {
    if 'A' <= c <= 'Z' then (c as int + 32) as char
    else if c == '\U{212A}' then 'k'
    else c
  }

  function ToUpper(s: string): string
  {
    seq(|s|, i requires 0 <= i < |s| => UpperChar(s[i]))
  }

  function ToLower(s: string): string
  {
    seq(|s|, i requires 0 <= i < |s| => LowerChar(s[i]))
  }

  /** Upper-casing leaves whitespace where it is and removes every lower-case ASCII letter. */
  lemma ToUpperSpaces(s: string)
    ensures |ToUpper(s)| == |s|
    ensures forall i :: 0 <= i < |s| ==> (IsSpace(ToUpper(s)[i]) <==> IsSpace(s[i]))
    ensures forall i :: 0 <= i < |s| && IsSpace(s[i]) ==> ToUpper(s)[i] == s[i]
    ensures forall i :: 0 <= i < |s| ==> !('a' <= ToUpper(s)[i] <= 'z')
  {
  }

  lemma UpperOfUpper(s: string)
    requires forall i :: 0 <= i < |s| ==> UpperChar(s[i]) == s[i]
    ensures ToUpper(s) == s
  {
  }

  /** `sub` occurs in `s` starting at index `i`. */
  predicate OccursAt(s: string, sub: string, i: nat)
  {
    i + |sub| <= |s| && s[i..i + |sub|] == sub
  }

  /** `s.includes(sub)`. */
  predicate Contains(s: string, sub: string)
  {
    exists i: nat | i <= |s| :: OccursAt(s, sub, i)
  }

  /** `includes` is transitive: a text containing `mid` contains everything `mid` contains. */
  lemma ContainsTransitive(s: string, mid: string, sub: string)
    requires Contains(s, mid) && Contains(mid, sub)
    ensures Contains(s, sub)
  {
    var i: nat :| i <= |s| && OccursAt(s, mid, i);
    var j: nat :| j <= |mid| && OccursAt(mid, sub, j);
    forall k | 0 <= k < |sub|
      ensures s[i + j + k] == sub[k]
    {
      assert sub[k] == mid[j + k] == s[i..i + |mid|][j + k];
    }
    assert s[i + j..i + j + |sub|] == sub;
    assert OccursAt(s, sub, i + j);
  }

  /** The number of UTF-16 code units of `s`: JavaScript's `s.length`. */
  function Utf16Length(s: string): nat
  {
    if s == [] then 0
    else (if s[0] as int < 0x1_0000 then 1 else 2) + Utf16Length(s[1..])
  }

  /** Every character takes one or two code units. */
  lemma {:induction false} Utf16LengthBounds(s: string)
    ensures |s| <= Utf16Length(s) <= 2 * |s|
  {
    if s != [] {
      Utf16LengthBounds(s[1..]);
    }
  }

  /** For text in the Basic Multilingual Plane, such as ASCII, `length` is the number of characters. */
  lemma {:induction false} Utf16LengthOfBmp(s: string)
    requires forall i :: 0 <= i < |s| ==> s[i] as int < 0x1_0000
    ensures Utf16Length(s) == |s|
  {
    if s != [] {
      Utf16LengthOfBmp(s[1..]);
    }
  }
}
