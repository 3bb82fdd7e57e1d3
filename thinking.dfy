/**
 * The optional removal of reasoning blocks before a response is saved:
 * `re.sub(r"<think>.*?</think>", "", content, flags=re.DOTALL).strip()`.
 */
module Thinking {
  import opened Wrappers
  import opened Strings

  const OpenTag: string := "<think>"
  const CloseTag: string := "</think>"

  /** A complete reasoning block around `x`. */
  function Block(x: string): string {
    OpenTag + x + CloseTag
  }

  /** The first index `j >= from` at which `p` occurs in `s`. */
  function FindFrom(s: string, p: string, from: nat): (r: Option<nat>)
    ensures r.Some? ==> from <= r.value && r.value + |p| <= |s|
    decreases |s| - from
  {
    if from + |p| > |s| then None
    else if OccursAt(s, p, from) then Some(from)
    else FindFrom(s, p, from + 1)
  }

  /** `FindFrom` finds the first occurrence at or after `from`, or reports there is none. */
  lemma {:induction false} FindFromFirst(s: string, p: string, from: nat)
    decreases |s| - from
    ensures var r := FindFrom(s, p, from);
      && (r.Some? ==> from <= r.value && OccursAt(s, p, r.value))
      && (r.Some? ==> forall j: nat :: from <= j < r.value ==> !OccursAt(s, p, j))
      && (r.None? ==> forall j: nat :: from <= j ==> !OccursAt(s, p, j))
  {
    if from + |p| <= |s| && !OccursAt(s, p, from) {
      FindFromFirst(s, p, from + 1);
    }
  }

  /** An occurrence at `e`, and none in `[from, e)`, is what `FindFrom` finds. */
  lemma {:induction false} FindFromAt(s: string, p: string, from: nat, e: nat)
    requires from <= e && OccursAt(s, p, e)
    requires forall j: nat :: from <= j < e ==> !OccursAt(s, p, j)
    decreases e - from
    ensures FindFrom(s, p, from) == Some(e)
  {
    if from < e {
      FindFromAt(s, p, from + 1, e);
    }
  }

  /**
   * The substitution: scanning from the left, a `<think>` that has a `</think>`
   * somewhere after it starts a match, which ends at the FIRST such `</think>`
   * (the lazy `.*?`, with `.` matching newlines too); the match is dropped and the
   * scan resumes after it. Anything else is copied one character at a time.
   */
  function StripBlocks(s: string): (r: string)
    ensures |r| <= |s|
    decreases |s|
  {
    if s == [] then []
    else if !StartsWith(s, OpenTag) then [s[0]] + StripBlocks(s[1..])
    else match FindFrom(s, CloseTag, |OpenTag|)
      case None => [s[0]] + StripBlocks(s[1..])
      case Some(j) => StripBlocks(s[j + |CloseTag|..])
  }

  /** The content that is saved: untouched when skipping is off, else blocks removed and stripped. */
  function SavedContent(content: string, skipThinking: bool): string {
    if skipThinking then Trim(StripBlocks(content)) else content
  }

  /** An occurrence that ends inside the prefix `a` is an occurrence in `a`. */
  lemma OccursInPrefix(a: string, t: string, p: string, i: nat)
    requires i + |p| <= |a|
    ensures OccursAt(a + t, p, i) <==> OccursAt(a, p, i)
  {
    assert (a + t)[i..i + |p|] == a[i..i + |p|];
  }

  /**
   * Both tags have their only `<` at the front, so neither can start inside `a` and
   * run on into a `t` that starts with `<`.
   */
  lemma NoStraddle(a: string, t: string, p: string, i: nat)
    requires p == OpenTag || p == CloseTag
    requires t != [] && t[0] == '<'
    requires i < |a| < i + |p|
    ensures !OccursAt(a + t, p, i)
  {
    var k := |a| - i;
    assert p[k] != '<';
    if i + |p| <= |a + t| {
      assert (a + t)[i..i + |p|][k] == (a + t)[|a|] == '<';
    }
  }

  /** A string without `<think>` is copied unchanged. */
  lemma {:induction false} NoOpenTagUnchanged(s: string)
    requires !Contains(s, OpenTag)
    ensures StripBlocks(s) == s
  {
    if s != [] {
      assert !OccursAt(s, OpenTag, 0);
      forall i: nat | OccursAt(s[1..], OpenTag, i)
        ensures false
      {
        OccursInSuffix(s, 1, OpenTag, i);
      }
      NoOpenTagUnchanged(s[1..]);
      assert s == [s[0]] + s[1..];
    }
  }

  /** In a block whose inside has no `</think>`, the first `</think>` is the block's own. */
  lemma CloseOfBlock(x: string, b: string)
    requires !Contains(x, CloseTag)
    ensures FindFrom(Block(x) + b, CloseTag, |OpenTag|) == Some(|OpenTag| + |x|)
  {
    var s := Block(x) + b;
    var head := OpenTag + x;
    var t := CloseTag + b;
    assert s == head + t;
    var e := |OpenTag| + |x|;
    assert t[..|CloseTag|] == CloseTag;
    assert OccursAt(s, CloseTag, e) by {
      assert s[e..e + |CloseTag|] == t[..|CloseTag|];
    }
    forall j: nat | |OpenTag| <= j < e
      ensures !OccursAt(s, CloseTag, j)
    {
      if j + |CloseTag| <= e {
        OccursInPrefix(head, t, CloseTag, j);
        OccursInSuffix(head, |OpenTag|, CloseTag, j - |OpenTag|);
        assert head[|OpenTag|..] == x;
        assert j - |OpenTag| <= |x|;
        assert !OccursAt(x, CloseTag, j - |OpenTag|);
      } else {
        NoStraddle(head, t, CloseTag, j);
      }
    }
    FindFromAt(s, CloseTag, |OpenTag|, e);
  }

  /** A leading block whose inside has no `</think>` is dropped. */
  lemma LeadingBlock(x: string, b: string)
    requires !Contains(x, CloseTag)
    ensures StripBlocks(Block(x) + b) == StripBlocks(b)
  {
    var s := Block(x) + b;
    assert StartsWith(s, OpenTag) by {
      assert s[..|OpenTag|] == OpenTag;
    }
    CloseOfBlock(x, b);
    assert s[|OpenTag| + |x| + |CloseTag|..] == b;
  }

  /** Text without `<think>` in front of a `<` is copied one character at a time. */
  lemma PlainStep(a: string, t: string)
    requires a != [] && !Contains(a, OpenTag)
    requires t != [] && t[0] == '<'
    ensures StripBlocks(a + t) == [a[0]] + StripBlocks(a[1..] + t)
    ensures !Contains(a[1..], OpenTag)
  {
    var s := a + t;
    if |a| >= |OpenTag| {
      OccursInPrefix(a, t, OpenTag, 0);
      assert !OccursAt(a, OpenTag, 0);
    } else {
      NoStraddle(a, t, OpenTag, 0);
    }
    assert !StartsWith(s, OpenTag);
    assert s[1..] == a[1..] + t;
    forall i: nat | OccursAt(a[1..], OpenTag, i)
      ensures false
    {
      OccursInSuffix(a, 1, OpenTag, i);
    }
  }

  /** Putting a string back together from its first character and the rest. */
  lemma HeadTail(a: string, rest: string)
    requires a != []
    ensures [a[0]] + (a[1..] + rest) == a + rest
  {
    assert [a[0]] + a[1..] == a;
  }

  /** Text without `<think>` in front of something starting with `<` is copied as it is. */
  lemma {:induction false} PlainPrefix(a: string, t: string)
    requires !Contains(a, OpenTag)
    requires t != [] && t[0] == '<'
    ensures StripBlocks(a + t) == a + StripBlocks(t)
  {
    if a == [] {
      assert a + t == t;
    } else {
      PlainStep(a, t);
      PlainPrefix(a[1..], t);
      HeadTail(a, StripBlocks(t));
    }
  }

  /**
   * A complete block is removed wherever it stands, as long as the text before it
   * has no `<think>` of its own and the block's inside has no `</think>`.
   */
  lemma StripsBlockAnywhere(a: string, x: string, b: string)
    requires !Contains(a, OpenTag)
    requires !Contains(x, CloseTag)
    ensures StripBlocks(a + Block(x) + b) == a + StripBlocks(b)
  {
    var t := Block(x) + b;
    assert a + Block(x) + b == a + t;
    assert t[0] == '<';
    PlainPrefix(a, t);
    LeadingBlock(x, b);
  }

  /** `keep[0] + Block(inner[0]) + keep[1] + ... + keep[n]`. */
  function Interleave(keep: seq<string>, inner: seq<string>): string
    requires |keep| == |inner| + 1
  {
    if inner == [] then keep[0]
    else keep[0] + Block(inner[0]) + Interleave(keep[1..], inner[1..])
  }

  function Concat(keep: seq<string>): string {
    if keep == [] then [] else keep[0] + Concat(keep[1..])
  }

  /**
   * Every block is removed, not only a leading one: text cut into pieces without
   * `<think>`, separated by blocks whose insides have no `</think>`, comes back as
   * the pieces alone.
   */
  lemma {:induction false} StripsEveryBlock(keep: seq<string>, inner: seq<string>)
    requires |keep| == |inner| + 1
    requires forall k :: 0 <= k < |keep| ==> !Contains(keep[k], OpenTag)
    requires forall k :: 0 <= k < |inner| ==> !Contains(inner[k], CloseTag)
    ensures StripBlocks(Interleave(keep, inner)) == Concat(keep)
  {
    if inner == [] {
      NoOpenTagUnchanged(keep[0]);
      assert Concat(keep[1..]) == [];
      assert Concat(keep) == keep[0] + [];
    } else {
      StripsBlockAnywhere(keep[0], inner[0], Interleave(keep[1..], inner[1..]));
      StripsEveryBlock(keep[1..], inner[1..]);
    }
  }

  /**
   * What is saved: with the option on, the response without its blocks and
   * stripped of surrounding whitespace; with it off, the response exactly as received.
   */
  lemma SavedContentOfBlocks(keep: seq<string>, inner: seq<string>)
    requires |keep| == |inner| + 1
    requires forall k :: 0 <= k < |keep| ==> !Contains(keep[k], OpenTag)
    requires forall k :: 0 <= k < |inner| ==> !Contains(inner[k], CloseTag)
    ensures SavedContent(Interleave(keep, inner), true) == Trim(Concat(keep))
    ensures SavedContent(Interleave(keep, inner), false) == Interleave(keep, inner)
  {
    StripsEveryBlock(keep, inner);
  }

  lemma Regroup(a: string, b: string, c: string, d: string, e: string, f: string, g: string)
    ensures a + b + c + d + e + f + g == a + (b + c + d) + e + (f + g)
  {
  }

  /** A `<` in `x + OpenTag + y` can only be the one of the tag, followed by `t`. */
  lemma InsideHasNoClose(x: string, y: string)
    requires '<' !in x && '<' !in y
    ensures !Contains(x + OpenTag + y, CloseTag)
  {
    var s := x + OpenTag + y;
    forall i: nat | i <= |s|
      ensures !OccursAt(s, CloseTag, i)
    {
      if i + |CloseTag| <= |s| {
        assert s[i..i + |CloseTag|][0] == s[i];
        assert s[i..i + |CloseTag|][1] == s[i + 1];
        if i < |x| {
          assert s[i] == x[i];
        } else if i == |x| {
          assert s[i + 1] == 't';
        } else if i < |x| + |OpenTag| {
          assert s[i] == OpenTag[i - |x|];
        } else {
          assert s[i] == y[i - |x| - |OpenTag|];
        }
      }
    }
  }

  /** In `z + CloseTag` the only `<` is followed by `/`. */
  lemma TailHasNoOpen(z: string)
    requires '<' !in z
    ensures !Contains(z + CloseTag, OpenTag)
  {
    var s := z + CloseTag;
    forall i: nat | i <= |s|
      ensures !OccursAt(s, OpenTag, i)
    {
      if i + |OpenTag| <= |s| {
        assert s[i..i + |OpenTag|][0] == s[i];
        assert s[i..i + |OpenTag|][1] == s[i + 1];
        if i < |z| {
          assert s[i] == z[i];
        } else if i == |z| {
          assert s[i + 1] == '/';
        } else {
          assert s[i] == CloseTag[i - |z|];
        }
      }
    }
  }

  /**
   * The match is the shortest one and blocks do not nest: in
   * `<think>x<think>y</think>z</think>` the first `</think>` closes the outer
   * `<think>`, and `z</think>` stays.
   */
  lemma NestedBlockKeepsTail(x: string, y: string, z: string)
    requires '<' !in x && '<' !in y && '<' !in z
    ensures StripBlocks(OpenTag + x + OpenTag + y + CloseTag + z + CloseTag) == z + CloseTag
  {
    var inside := x + OpenTag + y;
    var tail := z + CloseTag;
    Regroup(OpenTag, x, OpenTag, y, CloseTag, z, CloseTag);
    InsideHasNoClose(x, y);
    LeadingBlock(inside, tail);
    TailHasNoOpen(z);
    NoOpenTagUnchanged(tail);
  }
}
