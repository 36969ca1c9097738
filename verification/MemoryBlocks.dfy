/** Stripping `<memory>` blocks from a reply before the user sees it. */
module MemoryBlocks {
  import opened Wrappers
  import opened Strings

  const OPEN: string := "<memory>"
  const CLOSE: string := "</memory>"

  /** The first opening tag and the first closing tag after it. */
  function FirstBlock(s: string): (block: Option<(nat, nat)>)
    ensures block.Some? ==>
              && StartsAt(s, block.value.0, OPEN) && StartsAt(s, block.value.1, CLOSE)
              && block.value.0 + |OPEN| <= block.value.1
  {
    var open := Find(s, OPEN, 0);
    if open.None? then None
    else
      var close := Find(s, CLOSE, open.value);
      if close.None? then None
      else
        TagsDoNotOverlap(s, open.value, close.value);
        Some((open.value, close.value))
  }

  lemma TagsDoNotOverlap(s: string, i: nat, j: nat)
    requires StartsAt(s, i, OPEN) && StartsAt(s, j, CLOSE) && i <= j
    ensures i + |OPEN| <= j
  {
    CharAt(s, j, CLOSE, 0);
    CharAt(s, j, CLOSE, 1);
    CharAt(s, i, OPEN, 1);
    if i <= j < i + |OPEN| {
      CharAt(s, i, OPEN, j - i);
    }
  }

  function Cut(s: string, block: (nat, nat)): string
    requires block.0 <= block.1 && StartsAt(s, block.1, CLOSE)
  {
    s[..block.0] + s[block.1 + |CLOSE|..]
  }

  /** All blocks removed, as often as removal makes new ones. */
  function WithoutBlocks(s: string): string
    decreases |s|
  {
    var block := FirstBlock(s);
    if block.None? then s else WithoutBlocks(Cut(s, block.value))
  }

  function Strip(s: string): string {
    Trim(WithoutBlocks(s))
  }

  /** The loop that cuts one block after another out of the string. */
  method StripMemoryBlocks(text: string) returns (stripped: string)
    ensures stripped == Strip(text)
  {
    var result := text;
    while true
      invariant WithoutBlocks(result) == WithoutBlocks(text)
      decreases |result|
    {
      var start := Find(result, OPEN, 0);
      if start.None? {
        break;
      }
      var end := Find(result, CLOSE, start.value);
      if end.None? {
        break;
      }
      TagsDoNotOverlap(result, start.value, end.value);
      result := Cut(result, (start.value, end.value));
    }
    stripped := Trim(result);
  }

  /** Somewhere an opening tag is followed by a closing tag. */
  ghost predicate HasBlock(s: string) {
    exists i: nat, j: nat :: i <= j && StartsAt(s, i, "<memory>") && StartsAt(s, j, "</memory>")
  }

  lemma FirstBlockIffHasBlock(s: string)
    ensures FirstBlock(s).Some? <==> HasBlock(s)
  {
    if i: nat, j: nat :| i <= j && StartsAt(s, i, OPEN) && StartsAt(s, j, CLOSE) {
      FindIsFirst(s, OPEN, 0);
      var open := Find(s, OPEN, 0);
      assert open.Some? && open.value <= i;
      FindIsFirst(s, CLOSE, open.value);
    }
  }

  lemma {:induction false} NoBlockLeft(s: string)
    ensures !HasBlock(WithoutBlocks(s))
    decreases |s|
  {
    FirstBlockIffHasBlock(s);
    var block := FirstBlock(s);
    if block.Some? {
      NoBlockLeft(Cut(s, block.value));
    }
  }

  lemma SliceHasNoBlock(s: string, a: nat, b: nat)
    requires a <= b <= |s| && !HasBlock(s)
    ensures !HasBlock(s[a..b])
  {
    var t := s[a..b];
    if i: nat, j: nat :| i <= j && StartsAt(t, i, OPEN) && StartsAt(t, j, CLOSE) {
      StartsAtInSlice(s, a, b, i, OPEN);
      StartsAtInSlice(s, a, b, j, CLOSE);
    }
  }

  /** For every reply: no block survives, the result is trimmed, and stripping again changes nothing. */
  lemma StripIsFinal(s: string)
    ensures !HasBlock(Strip(s))
    ensures Trimmed(Strip(s))
    ensures Strip(Strip(s)) == Strip(s)
  {
    NoBlockLeft(s);
    var a, b := TrimMeaning(WithoutBlocks(s));
    SliceHasNoBlock(WithoutBlocks(s), a, b);
    FirstBlockIffHasBlock(Strip(s));
    TrimTrimmed(Strip(s));
  }

  /** Text without a block is only trimmed. */
  lemma NothingToStrip(s: string)
    requires !HasBlock(s)
    ensures Strip(s) == Trim(s)
  {
    FirstBlockIffHasBlock(s);
  }

  /** A block goes with both its tags, and nothing else does: `front` ends with the first opening tag, at
      `i`, and `block` with the first closing tag after it. */
  lemma {:induction false} BlockIsCutOut(front: string, block: string, after: string, i: nat)
    requires i + |OPEN| == |front| && Find(front, OPEN, 0) == Some(i)
    requires |CLOSE| <= |block| && Find(block, CLOSE, 0) == Some(|block| - |CLOSE|)
    ensures WithoutBlocks(front + block + after) == WithoutBlocks(front[..i] + after)
  {
    var s := front + block + after;
    FirstBlockIs(front, block, after, i);
    CutMeaning(front, block, after, i);
    assert Cut(s, (i, |front| + |block| - |CLOSE|)) == front[..i] + after;
  }

  lemma {:induction false} FirstBlockIs(front: string, block: string, after: string, i: nat)
    requires i + |OPEN| == |front| && Find(front, OPEN, 0) == Some(i)
    requires |CLOSE| <= |block| && Find(block, CLOSE, 0) == Some(|block| - |CLOSE|)
    ensures FirstBlock(front + block + after) == Some((i, |front| + |block| - |CLOSE|))
  {
    OpenIsFound(front, block, after, i);
    CloseIsFound(front, block, after, i, |block| - |CLOSE|);
  }

  lemma {:induction false} CloseIsFound(front: string, block: string, after: string, i: nat, n: nat)
    requires i + |OPEN| == |front| && StartsAt(front + block + after, i, OPEN) && Find(block, CLOSE, 0) == Some(n)
    ensures Find(front + block + after, CLOSE, i) == Some(|front| + n)
  {
    FindInMiddle(front, block, after, CLOSE, n);
    CloseSearchSkipsOpen(front + block + after, i);
  }

  lemma {:induction false} OpenIsFound(front: string, block: string, after: string, i: nat)
    requires Find(front, OPEN, 0) == Some(i)
    ensures Find(front + block + after, OPEN, 0) == Some(i)
  {
    FindInFront(front, block, OPEN, i);
    FindInFront(front + block, after, OPEN, i);
  }

  /** No closing tag begins inside an opening tag. */
  lemma CloseSearchSkipsOpen(s: string, i: nat)
    requires StartsAt(s, i, OPEN) && Find(s, CLOSE, i + |OPEN|).Some?
    ensures Find(s, CLOSE, i) == Find(s, CLOSE, i + |OPEN|)
  {
    forall k: nat | i <= k < i + |OPEN| ensures !StartsAt(s, k, CLOSE) {
      if StartsAt(s, k, CLOSE) {
        TagsDoNotOverlap(s, i, k);
      }
    }
    FindFromEarlier(s, CLOSE, i, i + |OPEN|);
  }

  lemma CutMeaning(front: string, block: string, after: string, i: nat)
    requires i <= |front|
    ensures (front + block + after)[..i] + (front + block + after)[|front| + |block|..] == front[..i] + after
  {
  }
}
