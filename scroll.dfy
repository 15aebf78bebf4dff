/** The scrolling cursor of the chapter 9 and chapter 10 text-screen drivers:
    `display_next` first moves a `position` at or past the end of the text
    back to 0, then shows the character there and steps past it. */
module Scroll {

  /** The index `display_next` shows: `position`, or 0 once the cursor has
      reached the end of the text. */
  function Wrap(position: nat, len: nat): (w: nat)
    ensures len > 0 ==> w < len
    ensures position < len ==> w == position
    ensures position >= len ==> w == 0
  {
    if position >= len then 0 else position
  }

  /** The cursor after one `display_next`: past the character just shown, or
      0 when there is no text. */
  function Advance(position: nat, len: nat): (p: nat)
    ensures p <= len
    ensures len > 0 ==> p == Wrap(position, len) + 1
  {
    if len == 0 then 0 else Wrap(position, len) + 1
  }

  /** The cursor after `k` calls of `display_next` on an unchanged text. */
  function AfterTicks(position: nat, len: nat, k: nat): nat {
    if k == 0 then position else Advance(AfterTicks(position, len, k - 1), len)
  }

  /** The index shown by the `k`-th call (counting from 0). */
  function ShownAt(position: nat, len: nat, k: nat): nat {
    Wrap(AfterTicks(position, len, k), len)
  }

  /** On an unchanged text the driver shows the characters in order, from
      the index the first call shows up to the end of the text. */
  lemma {:induction false} ShowsInOrder(position: nat, len: nat, k: nat)
    requires k + Wrap(position, len) < len
    ensures ShownAt(position, len, k) == Wrap(position, len) + k
    ensures AfterTicks(position, len, k + 1) == Wrap(position, len) + k + 1
  {
    if k > 0 {
      ShowsInOrder(position, len, k - 1);
    }
  }

  lemma {:induction false} AfterTicksAdd(position: nat, len: nat, a: nat, b: nat)
    ensures AfterTicks(position, len, a + b) == AfterTicks(AfterTicks(position, len, a), len, b)
  {
    if b > 0 {
      AfterTicksAdd(position, len, a, b - 1);
    }
  }

  /** Once the last character has been shown, the next call starts again at
      index 0, and `len` calls later the cursor is back at the end: the
      display cycles through the text with period `len`. */
  lemma StartsAgain(position: nat, len: nat)
    requires len > 0
    ensures AfterTicks(position, len, len - Wrap(position, len)) == len
    ensures ShownAt(len, len, 0) == 0
    ensures AfterTicks(len, len, len) == len
  {
    ShowsInOrder(position, len, len - Wrap(position, len) - 1);
    ShowsInOrder(len, len, len - 1);
  }

  /** Every character of the text is shown within the first `len` calls. */
  lemma EveryCharacterShown(position: nat, len: nat, index: nat)
    requires index < len
    ensures exists k: nat :: k < len && ShownAt(position, len, k) == index
  {
    var w := Wrap(position, len);
    if index >= w {
      ShowsInOrder(position, len, index - w);
      assert ShownAt(position, len, index - w) == index;
    } else {
      var k := len - w + index;
      StartsAgain(position, len);
      AfterTicksAdd(position, len, len - w, index);
      ShowsInOrder(len, len, index);
      assert ShownAt(position, len, k) == index;
    }
  }
}
