/**
 Text utilities over `string` (a `seq<char>`): prefix and suffix tests, Swift's
 `joined(separator:)`, and the splitting that undoes a join on one character.
 */
module Strings {

  /** `pre` is a prefix of `s`. */
  predicate StartsWith(s: string, pre: string) {
    |pre| <= |s| && s[..|pre|] == pre
  }

  /** `suf` is a suffix of `s`. */
  predicate EndsWith(s: string, suf: string) {
    |suf| <= |s| && s[|s| - |suf|..] == suf
  }

  /** Text without a line break: what one line of generated output holds. */
  type Line = s: string | '\n' !in s

  /** Swift's `joined(separator:)`: the parts in order with `sep` between neighbours. */
  function Join(parts: seq<string>, sep: string): string
  {
    if |parts| == 0 then ""
    else if |parts| == 1 then parts[0]
    else parts[0] + sep + Join(parts[1..], sep)
  }

  /** No line of `lines` contains `c`. */
  predicate FreeOf(lines: seq<string>, c: char) {
    forall i :: 0 <= i < |lines| ==> c !in lines[i]
  }

  /** Cuts `s` at every occurrence of `c`: the pieces between the occurrences, in order. */
  function Split(s: string, c: char): (r: seq<string>)
    ensures |r| >= 1
    ensures forall i :: 0 <= i < |r| ==> c !in r[i]
  {
    if |s| == 0 then [""]
    else
      var rest := Split(s[1..], c);
      if s[0] == c then [""] + rest
      else [[s[0]] + rest[0]] + rest[1..]
  }

  /** The longest prefix of `s` in which `c` does not occur. */
  function TakeUntil(s: string, c: char): (r: string)
    ensures StartsWith(s, r)
    ensures c !in r
    ensures |r| < |s| ==> s[|r|] == c
  {
    if |s| == 0 || s[0] == c then ""
    else [s[0]] + TakeUntil(s[1..], c)
  }

  /** The lines of several blocks, one empty line between neighbouring blocks. */
  function Sections(blocks: seq<seq<string>>): (r: seq<string>)
    ensures |blocks| > 0 ==> |r| >= |blocks[0]|
  {
    if |blocks| == 0 then []
    else if |blocks| == 1 then blocks[0]
    else blocks[0] + [""] + Sections(blocks[1..])
  }

  /** The sections open with the first block's lines. */
  lemma SectionsStartWithFirst(blocks: seq<seq<string>>)
    requires |blocks| > 0
    ensures Sections(blocks)[..|blocks[0]|] == blocks[0]
  {
    if |blocks| > 1 {
      assert (blocks[0] + [""] + Sections(blocks[1..]))[..|blocks[0]|] == blocks[0];
    }
  }

  /** The sections close with the last block's lines. */
  lemma {:induction false} SectionsEndWithLast(blocks: seq<seq<string>>)
    requires |blocks| > 0
    ensures |Sections(blocks)| >= |blocks[|blocks| - 1]|
    ensures Sections(blocks)[|Sections(blocks)| - |blocks[|blocks| - 1]|..] == blocks[|blocks| - 1]
    decreases |blocks|
  {
    if |blocks| > 1 {
      var last := blocks[|blocks| - 1];
      var rest := Sections(blocks[1..]);
      SectionsEndWithLast(blocks[1..]);
      assert blocks[1..][|blocks| - 2] == last;
      var r := blocks[0] + [""] + rest;
      assert r[|r| - |last|..] == rest[|rest| - |last|..];
    }
  }

  /** Each block joined on its own. */
  function JoinEach(blocks: seq<seq<string>>, sep: string): (r: seq<string>)
    ensures |r| == |blocks|
    ensures forall i :: 0 <= i < |blocks| ==> r[i] == Join(blocks[i], sep)
  {
    if |blocks| == 0 then []
    else [Join(blocks[0], sep)] + JoinEach(blocks[1..], sep)
  }

  /** A prefix put in front of `s` is recognised, and dropping it gives back `s`. */
  lemma PrefixOf(pre: string, s: string)
    ensures StartsWith(pre + s, pre)
    ensures (pre + s)[|pre|..] == s
  {
    assert (pre + s)[..|pre|] == pre;
  }

  /** A suffix put after `s` is recognised, and dropping it gives back `s`. */
  lemma SuffixOf(s: string, suf: string)
    ensures EndsWith(s + suf, suf)
    ensures (s + suf)[..|s + suf| - |suf|] == s
  {
    assert (s + suf)[|s + suf| - |suf|..] == suf;
  }

  /** Text put in front keeps a suffix a suffix. */
  lemma EndsWithAppend(front: string, s: string, suf: string)
    requires EndsWith(s, suf)
    ensures EndsWith(front + s, suf)
  {
    assert (front + s)[|front + s| - |suf|..] == s[|s| - |suf|..];
  }

  /** A string ends in the last character of any non-empty suffix it has. */
  lemma LastOfSuffix(s: string, suf: string)
    requires EndsWith(s, suf) && |suf| > 0
    ensures |s| > 0 && s[|s| - 1] == suf[|suf| - 1]
  {
    assert s[|s| - |suf|..][|suf| - 1] == s[|s| - 1];
  }

  /** Joining two non-empty runs of parts puts exactly one separator at the seam. */
  lemma {:induction false} JoinAppend(a: seq<string>, b: seq<string>, sep: string)
    requires |a| > 0 && |b| > 0
    ensures Join(a + b, sep) == Join(a, sep) + sep + Join(b, sep)
    decreases |a|
  {
    if |a| == 1 {
      assert (a + b)[1..] == b;
    } else {
      assert (a + b)[1..] == a[1..] + b;
      JoinAppend(a[1..], b, sep);
    }
  }

  /** With one more part, the join gains one separator and that part at its end. */
  lemma JoinSnoc(a: seq<string>, x: string, sep: string)
    requires |a| > 0
    ensures Join(a + [x], sep) == Join(a, sep) + sep + x
  {
    JoinAppend(a, [x], sep);
  }

  /** If `c` does not occur in `a`, `a` merges into the first piece of whatever follows it. */
  lemma {:induction false} SplitPrepend(a: string, t: string, c: char)
    requires c !in a
    ensures Split(a + t, c) == [a + Split(t, c)[0]] + Split(t, c)[1..]
    decreases |a|
  {
    if |a| == 0 {
      var pieces := Split(t, c);
      assert a + t == t;
      assert a + pieces[0] == pieces[0];
      assert pieces == [pieces[0]] + pieces[1..];
    } else {
      assert (a + t)[0] == a[0];
      assert (a + t)[1..] == a[1..] + t;
      SplitPrepend(a[1..], t, c);
      assert [a[0]] + (a[1..] + Split(t, c)[0]) == a + Split(t, c)[0];
    }
  }

  /** Splitting undoes joining on `c`, provided no part contains `c`. */
  lemma {:induction false} SplitJoin(parts: seq<string>, c: char)
    requires |parts| > 0
    requires FreeOf(parts, c)
    ensures Split(Join(parts, [c]), c) == parts
    decreases |parts|
  {
    if |parts| == 1 {
      SplitPrepend(parts[0], "", c);
      assert Split("", c) == [""];
      assert parts[0] + "" == parts[0];
    } else {
      var t := Join(parts[1..], [c]);
      SplitJoin(parts[1..], c);
      assert ([c] + t)[0] == c;
      assert ([c] + t)[1..] == t;
      assert Split([c] + t, c) == [""] + Split(t, c);
      SplitPrepend(parts[0], [c] + t, c);
      assert parts[0] + "" == parts[0];
      assert Join(parts, [c]) == parts[0] + ([c] + t);
      assert parts == [parts[0]] + parts[1..];
    }
  }

  /** Cutting at `c` right after a prefix free of `c` recovers exactly that prefix. */
  lemma {:induction false} TakeUntilExact(a: string, t: string, c: char)
    requires c !in a
    requires |t| > 0 && t[0] == c
    ensures TakeUntil(a + t, c) == a
    decreases |a|
  {
    if |a| == 0 {
      assert a + t == t;
    } else {
      assert (a + t)[0] == a[0];
      assert (a + t)[1..] == a[1..] + t;
      TakeUntilExact(a[1..], t, c);
      assert a == [a[0]] + a[1..];
    }
  }

  /** One more block adds one blank separator line and that block's lines at the end. */
  lemma {:induction false} SectionsSnoc(blocks: seq<seq<string>>, last: seq<string>)
    requires |blocks| > 0
    ensures Sections(blocks + [last]) == Sections(blocks) + [""] + last
    decreases |blocks|
  {
    if |blocks| == 1 {
      assert (blocks + [last])[1..] == [last];
    } else {
      assert (blocks + [last])[1..] == blocks[1..] + [last];
      SectionsSnoc(blocks[1..], last);
    }
  }

  /** Joining each block of a run extended by one block appends that block's join. */
  lemma {:induction false} JoinEachSnoc(blocks: seq<seq<string>>, last: seq<string>, sep: string)
    ensures JoinEach(blocks + [last], sep) == JoinEach(blocks, sep) + [Join(last, sep)]
  {
    var r := JoinEach(blocks + [last], sep);
    assert r[|blocks|] == Join((blocks + [last])[|blocks|], sep);
    assert forall i :: 0 <= i < |blocks| ==> r[i] == Join((blocks + [last])[i], sep);
  }

  /** No line of any block contains `c`. */
  predicate BlocksFreeOf(blocks: seq<seq<string>>, c: char) {
    forall i :: 0 <= i < |blocks| ==> FreeOf(blocks[i], c)
  }

  lemma FreeOfSnoc(blocks: seq<seq<string>>, last: seq<string>, c: char)
    requires BlocksFreeOf(blocks, c) && FreeOf(last, c)
    ensures BlocksFreeOf(blocks + [last], c)
  {
    assert forall i :: 0 <= i < |blocks| ==> (blocks + [last])[i] == blocks[i];
  }

  /** Every block holds at least one line. */
  predicate NonEmptyBlocks(blocks: seq<seq<string>>) {
    forall i :: 0 <= i < |blocks| ==> |blocks[i]| > 0
  }

  lemma NonEmptySnoc(blocks: seq<seq<string>>, last: seq<string>)
    requires NonEmptyBlocks(blocks) && |last| > 0
    ensures NonEmptyBlocks(blocks + [last])
  {
    assert forall i :: 0 <= i < |blocks| ==> (blocks + [last])[i] == blocks[i];
  }

  /** If no block has a line containing `c`, neither does any line of their sections. */
  lemma {:induction false} SectionsFreeOf(blocks: seq<seq<string>>, c: char)
    requires BlocksFreeOf(blocks, c)
    ensures FreeOf(Sections(blocks), c)
    decreases |blocks|
  {
    if |blocks| >= 2 {
      SectionsFreeOf(blocks[1..], c);
      var rest := Sections(blocks[1..]);
      var r := blocks[0] + [""] + rest;
      forall k | 0 <= k < |r|
        ensures c !in r[k]
      {
        if k < |blocks[0]| {
          assert r[k] == blocks[0][k];
        } else if k > |blocks[0]| {
          assert r[k] == rest[k - |blocks[0]| - 1];
        }
      }
    } else if |blocks| == 1 {
      assert FreeOf(blocks[0], c);
    }
  }

  /** Joining the blocks' joins with a doubled separator equals joining their lines with blank lines between. */
  lemma {:induction false} JoinSections(blocks: seq<seq<string>>, sep: string)
    requires NonEmptyBlocks(blocks)
    ensures Join(JoinEach(blocks, sep), sep + sep) == Join(Sections(blocks), sep)
    decreases |blocks|
  {
    if |blocks| >= 2 {
      var rest := Sections(blocks[1..]);
      JoinSections(blocks[1..], sep);
      assert JoinEach(blocks, sep)[1..] == JoinEach(blocks[1..], sep);
      JoinAppend(blocks[0], [""] + rest, sep);
      assert ([""] + rest)[1..] == rest;
      assert blocks[0] + [""] + rest == blocks[0] + ([""] + rest);
    }
  }
}
