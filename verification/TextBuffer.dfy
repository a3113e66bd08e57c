/** A fixed character buffer filled with sprintf at a moving cursor, as the kernel generators do. */
module TextBuffer {
  import opened CStrings

  /** The buffer starts with the C string text: strlen(buffer) == |text|. */
  ghost predicate HoldsText(buffer: seq<char>, text: string) {
    CString(text) && |text| < |buffer| && buffer[..|text|] == text && buffer[|text|] == '\0'
  }

  class TextBuffer {
    const chars: array<char>
    var pos: nat
    /** Everything printed so far. */
    ghost var text: string

    ghost predicate Valid()
      reads this, chars
    {
      HoldsText(chars[..], text) && pos == |text|
    }

    /** malloc, then one sprintf at the start of the buffer. */
    constructor (capacity: nat, start: string)
      requires CString(start) && |start| < capacity
      ensures Valid() && fresh(chars) && chars.Length == capacity && text == start
    {
      chars := new char[capacity];
      new;
      Sprintf(0, start);
      pos := Strlen(start);
      text := start;
    }

    /** sprintf(chars + at, "%s", piece), writing the terminator too. */
    method Sprintf(at: nat, piece: string)
      requires at + |piece| < chars.Length
      modifies chars
      ensures chars[..at] == old(chars[..at]) && chars[at..at + |piece|] == piece
      ensures chars[at + |piece|] == '\0'
    {
      for i := 0 to |piece|
        invariant chars[..at] == old(chars[..at]) && chars[at..at + i] == piece[..i]
      {
        chars[at + i] := piece[i];
      }
      chars[at + |piece|] := '\0';
    }

    /** strlen(chars) */
    method Strlen(ghost held: string) returns (n: nat)
      requires HoldsText(chars[..], held)
      ensures n == |held|
    {
      n := 0;
      while chars[n] != '\0'
        invariant n <= |held|
        decreases |held| - n
      {
        assert chars[..][..|held|] == held;
        n := n + 1;
      }
      assert chars[..][..|held|] == held;
    }

    lemma Extended(before: seq<char>, piece: string)
      requires HoldsText(before, text) && CString(piece) && |text| + |piece| < |before| == chars.Length
      requires chars[..|text|] == before[..|text|] && chars[|text|..|text| + |piece|] == piece
      requires chars[|text| + |piece|] == '\0'
      ensures HoldsText(chars[..], text + piece)
    {
      assert chars[..][..|text| + |piece|] == chars[..|text|] + chars[|text|..|text| + |piece|];
    }

    /** sprintf at the cursor, then measure the whole buffer again. */
    method Print(piece: string)
      requires Valid() && CString(piece) && |text| + |piece| < chars.Length
      modifies this, chars
      ensures Valid() && text == old(text) + piece
    {
      ghost var before := chars[..];
      Sprintf(pos, piece);
      Extended(before, piece);
      text := text + piece;
      pos := Strlen(text);
    }

    /** sprintf at the cursor, then advance it by a number written in the source. */
    method PrintCounted(piece: string, count: nat)
      requires Valid() && CString(piece) && |text| + |piece| < chars.Length
      requires count == |piece|
      modifies this, chars
      ensures Valid() && text == old(text) + piece
    {
      ghost var before := chars[..];
      Sprintf(pos, piece);
      Extended(before, piece);
      text := text + piece;
      pos := pos + count;
    }

    /** The C string in the buffer. */
    method Contents() returns (held: string)
      requires Valid()
      ensures held == text
    {
      assert chars[..][..pos] == text;
      held := chars[..pos];
    }
  }
}
