/** The option list at the end of a DHCP message, laid out as in section 2 of RFC 2132: a code, a
    length and that many bytes for each option, and an end marker after the last. */
module DhcpOptions {
  import opened Bytes

  const END: byte := 255

  datatype Maybe<T> = None | Some(value: T)

  datatype Item = Item(code: byte, data: seq<byte>) {
    predicate Valid() {
      code != END && |data| < 0x100
    }
  }

  predicate AllValid(items: seq<Item>) {
    forall i :: 0 <= i < |items| ==> items[i].Valid()
  }

  function Encoded(items: seq<Item>): seq<byte>
    requires AllValid(items)
  {
    if items == [] then [] else [items[0].code, |items[0].data|] + items[0].data + Encoded(items[1..])
  }

  /** The data of the first option with this code. */
  function Find(items: seq<Item>, code: byte): Maybe<seq<byte>> {
    if items == [] then None
    else if items[0].code == code then Some(items[0].data)
    else Find(items[1..], code)
  }

  // ---- a list in memory, walked by its length bytes ------------------------------------------

  /** Walking from `at`, an end marker is met inside the buffer. */
  predicate Terminated(bytes: seq<byte>, at: nat)
    decreases |bytes| - at
  {
    at < |bytes| && (bytes[at] == END || (at + 1 < |bytes| && Terminated(bytes, at + bytes[at + 1] + 2)))
  }

  function EndAt(bytes: seq<byte>, at: nat): (e: nat)
    requires Terminated(bytes, at)
    ensures at <= e < |bytes| && bytes[e] == END
    decreases |bytes| - at
  {
    if bytes[at] == END then at else EndAt(bytes, at + bytes[at + 1] + 2)
  }

  function Items(bytes: seq<byte>, at: nat): (items: seq<Item>)
    requires Terminated(bytes, at)
    ensures AllValid(items)
    decreases |bytes| - at
  {
    if bytes[at] == END then []
    else
      var next := at + bytes[at + 1] + 2;
      assert next <= EndAt(bytes, next);
      [Item(bytes[at], bytes[at + 2..next])] + Items(bytes, next)
  }

  /** The buffer with `data` copied to `at`. */
  function Overlay(bytes: seq<byte>, at: nat, data: seq<byte>): (r: seq<byte>)
    requires at + |data| <= |bytes|
    ensures |r| == |bytes|
  {
    bytes[..at] + data + bytes[at + |data|..]
  }

  /** The buffer after an option was added over the end marker, and a new marker after it. */
  function WithOption(bytes: seq<byte>, at: nat, option: byte, data: seq<byte>): seq<byte>
    requires Terminated(bytes, at) && |data| < 0x100 && EndAt(bytes, at) + |data| + 3 <= |bytes|
  {
    Overlay(bytes, EndAt(bytes, at), [option, |data|] + data + [END])
  }

  method CopyBytes(dest: array<byte>, to: nat, data: seq<byte>)
    requires to + |data| <= dest.Length
    modifies dest
    ensures dest[..] == Overlay(old(dest[..]), to, data)
  {
    for i := 0 to |data|
      invariant forall k :: 0 <= k < dest.Length ==> dest[k] == if to <= k < to + i then data[k - to] else old(dest[k])
    {
      dest[to + i] := data[i];
    }
  }

  /** The writes that make up a new option, one after the other. */
  lemma OptionPieces(bytes: seq<byte>, p: nat, option: byte, data: seq<byte>)
    requires |data| < 0x100 && p + |data| + 3 <= |bytes|
    ensures Overlay(bytes[p := option][p + 1 := |data|], p + 2, data)[p + 2 + |data| := END]
         == Overlay(bytes, p, [option, |data|] + data + [END])
  {
  }

  /** Writes an option and a new end marker over the end marker at `p`. */
  method PutOption(list: array<byte>, p: nat, option: byte, data: seq<byte>)
    requires |data| < 0x100 && p + |data| + 3 <= list.Length
    modifies list
    ensures list[..] == Overlay(old(list[..]), p, [option, |data|] + data + [END])
  {
    ghost var was: seq<byte> := list[..];
    list[p] := option;
    list[p + 1] := |data|;
    assert list[..] == was[p := option][p + 1 := |data|];
    CopyBytes(list, p + 2, data);
    ghost var filled: seq<byte> := list[..];
    list[p + 2 + |data|] := END;
    assert list[..] == filled[p + 2 + |data| := END];
    OptionPieces(was, p, option, data);
  }

  /** Adds an option to the list at `at`; the number of bytes added is returned in one byte. */
  method SetOption(list: array<byte>, at: nat, option: byte, data: seq<byte>) returns (added: byte)
    requires Terminated(list[..], at) && |data| < 0x100
    requires EndAt(list[..], at) + |data| + 3 <= list.Length
    modifies list
    ensures list[..] == WithOption(old(list[..]), at, option, data)
    ensures added == (2 + |data|) % 0x100
  {
    ghost var was := list[..];
    var p := at;
    while list[p] != END
      invariant Terminated(was, p) && EndAt(was, p) == EndAt(was, at)
      decreases list.Length - p
    {
      var length: nat := list[p + 1];
      p := p + (length + 2);
    }
    PutOption(list, p, option, data);
    added := (2 + |data|) % 0x100;
  }

  lemma ItemAt(bytes: seq<byte>, p: nat)
    requires Terminated(bytes, p) && bytes[p] != END
    ensures var next := p + bytes[p + 1] + 2;
      && Terminated(bytes, next) && next <= |bytes|
      && Items(bytes, p) == [Item(bytes[p], bytes[p + 2..next])] + Items(bytes, next)
      && Items(bytes, p)[1..] == Items(bytes, next)
  {
    assert p + bytes[p + 1] + 2 <= EndAt(bytes, p);
  }

  /** Copies the data of the first option with this code to `dest`, if there is one. */
  method GetOption(list: array<byte>, at: nat, option: byte, dest: array<byte>, to: nat) returns (found: bool)
    requires list != dest && Terminated(list[..], at)
    requires var v := Find(Items(list[..], at), option); v.Some? ==> to + |v.value| <= dest.Length
    modifies dest
    ensures found == Find(Items(list[..], at), option).Some?
    ensures dest[..] == Fetched(old(dest[..]), to, Find(Items(list[..], at), option))
  {
    ghost var bytes := list[..];
    var p := at;
    while list[p] != END
      invariant Terminated(bytes, p) && Find(Items(bytes, p), option) == Find(Items(bytes, at), option)
      invariant dest[..] == old(dest[..])
      decreases list.Length - p
    {
      var length: nat := list[p + 1];
      var next := p + (length + 2);
      ItemAt(bytes, p);
      if list[p] == option {
        assert bytes[p + 2..next] == list[p + 2..next];
        CopyBytes(dest, to, list[p + 2..p + 2 + length]);
        return true;
      }
      p := next;
    }
    found := false;
  }

  /** A destination after a lookup: untouched if the option was not there. */
  function Fetched(dest: seq<byte>, to: nat, v: Maybe<seq<byte>>): (r: seq<byte>)
    requires v.Some? ==> to + |v.value| <= |dest|
    ensures |r| == |dest|
  {
    if v.Some? then Overlay(dest, to, v.value) else dest
  }

  // ---- what the bytes of a list mean -----------------------------------------------------------

  lemma {:induction false} EncodedAppend(a: seq<Item>, b: seq<Item>)
    requires AllValid(a) && AllValid(b)
    ensures Encoded(a + b) == Encoded(a) + Encoded(b)
  {
    if a == [] {
      assert a + b == b;
    } else {
      assert (a + b)[1..] == a[1..] + b;
      EncodedAppend(a[1..], b);
    }
  }

  lemma SliceInThree(bytes: seq<byte>, at: nat, next: nat, end: nat)
    requires at + 2 <= next <= end <= |bytes|
    ensures bytes[at..end] == [bytes[at], bytes[at + 1]] + bytes[at + 2..next] + bytes[next..end]
  {
  }

  /** What a walk passes over is the encoding of the options it meets. */
  lemma {:induction false} WalkDecodes(bytes: seq<byte>, at: nat)
    requires Terminated(bytes, at)
    ensures bytes[at..EndAt(bytes, at)] == Encoded(Items(bytes, at))
    decreases |bytes| - at
  {
    if bytes[at] != END {
      var next := at + bytes[at + 1] + 2;
      ItemAt(bytes, at);
      WalkDecodes(bytes, next);
      SliceInThree(bytes, at, next, EndAt(bytes, at));
    }
  }

  lemma EncodedParts(items: seq<Item>)
    requires AllValid(items) && items != []
    ensures var e, n := Encoded(items), |items[0].data|;
      && |e| >= 2 + n && e[0] == items[0].code && e[1] == n
      && e[2..2 + n] == items[0].data && e[2 + n..] == Encoded(items[1..])
  {
  }

  /** Slices of a slice. */
  lemma SliceParts(bytes: seq<byte>, at: nat, s: seq<byte>, k: nat)
    requires at + |s| <= |bytes| && bytes[at..at + |s|] == s && 2 <= k <= |s|
    ensures bytes[at] == s[0] && bytes[at + 1] == s[1]
    ensures bytes[at + 2..at + k] == s[2..k] && bytes[at + k..at + |s|] == s[k..]
  {
    forall j | 2 <= j < k ensures bytes[at + 2..at + k][j - 2] == s[j] {
      assert s[j] == bytes[at..at + |s|][j];
    }
  }

  /** The bytes from `at` on are the encoding of the options, and an end marker. */
  predicate Holds(bytes: seq<byte>, at: nat, items: seq<Item>)
    requires AllValid(items)
  {
    var end := at + |Encoded(items)|;
    end < |bytes| && bytes[at..end] == Encoded(items) && bytes[end] == END
  }

  lemma FirstHeld(bytes: seq<byte>, at: nat, items: seq<Item>)
    requires AllValid(items) && items != [] && Holds(bytes, at, items)
    ensures var next := at + 2 + |items[0].data|;
      && next < |bytes| && bytes[at] == items[0].code && bytes[at + 1] == |items[0].data|
      && bytes[at + 2..next] == items[0].data && Holds(bytes, next, items[1..])
      && at + |Encoded(items)| == next + |Encoded(items[1..])|
  {
    EncodedParts(items);
    SliceParts(bytes, at, Encoded(items), 2 + |items[0].data|);
  }

  /** An encoded list is walked back to its options, whatever bytes its data holds. */
  lemma {:induction false} EncodingWalksBack(bytes: seq<byte>, at: nat, items: seq<Item>)
    requires AllValid(items) && Holds(bytes, at, items)
    ensures Terminated(bytes, at) && Items(bytes, at) == items && EndAt(bytes, at) == at + |Encoded(items)|
    decreases |items|
  {
    if items != [] {
      FirstHeld(bytes, at, items);
      EncodingWalksBack(bytes, at + 2 + |items[0].data|, items[1..]);
      assert Terminated(bytes, at);
      ItemAt(bytes, at);
      assert items == [items[0]] + items[1..];
    }
  }

  /** A copy is where it was put; what lies beside it is as before. */
  lemma OverlaySlices(bytes: seq<byte>, at: nat, data: seq<byte>, i: nat, j: nat)
    requires at + |data| <= |bytes| && i <= j <= |bytes| && (j <= at || at + |data| <= i)
    ensures Overlay(bytes, at, data)[at..at + |data|] == data
    ensures Overlay(bytes, at, data)[i..j] == bytes[i..j]
  {
  }

  lemma OverlayFollows(bytes: seq<byte>, at: nat, end: nat, more: seq<byte>, last: byte)
    requires at <= end && end + |more| < |bytes|
    ensures var after := Overlay(bytes, end, more + [last]);
      after[at..end + |more|] == bytes[at..end] + more && after[end + |more|] == last
  {
  }

  /** An encoded list followed by one more encoded option. */
  lemma HoldsOneMore(bytes: seq<byte>, at: nat, items: seq<Item>, item: Item)
    requires AllValid(items) && item.Valid() && Holds(bytes, at, items)
    requires at + |Encoded(items)| + |item.data| + 3 <= |bytes|
    ensures Holds(Overlay(bytes, at + |Encoded(items)|, [item.code, |item.data|] + item.data + [END]), at, items + [item])
    ensures |Encoded(items + [item])| == |Encoded(items)| + 2 + |item.data|
  {
    EncodedAppend(items, [item]);
    assert Encoded([item]) == [item.code, |item.data|] + item.data by {
      assert Encoded([]) == [];
    }
    OverlayFollows(bytes, at, at + |Encoded(items)|, [item.code, |item.data|] + item.data, END);
  }

  lemma OneMoreIsWalked(bytes: seq<byte>, at: nat, items: seq<Item>, item: Item)
    requires AllValid(items) && item.Valid() && Holds(bytes, at, items)
    requires at + |Encoded(items)| + |item.data| + 3 <= |bytes|
    ensures var end := at + |Encoded(items)|;
      var after := Overlay(bytes, end, [item.code, |item.data|] + item.data + [END]);
      && Terminated(after, at) && Items(after, at) == items + [item] && EndAt(after, at) == end + 2 + |item.data|
  {
    HoldsOneMore(bytes, at, items, item);
    EncodingWalksBack(Overlay(bytes, at + |Encoded(items)|, [item.code, |item.data|] + item.data + [END]), at, items + [item]);
  }

  /** Adding an option adds it at the end of the list and moves the end marker behind it. */
  lemma OptionIsAppended(bytes: seq<byte>, at: nat, option: byte, data: seq<byte>)
    requires Terminated(bytes, at) && option != END && |data| < 0x100 && EndAt(bytes, at) + |data| + 3 <= |bytes|
    ensures var after := WithOption(bytes, at, option, data);
      && Terminated(after, at) && Items(after, at) == Items(bytes, at) + [Item(option, data)]
      && EndAt(after, at) == EndAt(bytes, at) + 2 + |data|
  {
    WalkDecodes(bytes, at);
    OneMoreIsWalked(bytes, at, Items(bytes, at), Item(option, data));
  }

  lemma {:induction false} FindAppended(items: seq<Item>, item: Item, code: byte)
    ensures Find(items + [item], code) ==
      if Find(items, code).None? && code == item.code then Some(item.data) else Find(items, code)
  {
    if items != [] {
      assert (items + [item])[1..] == items[1..] + [item];
      FindAppended(items[1..], item, code);
    }
  }

  /** An option that was not in the list is read back as it was stored, and every other lookup
      gives what it gave before. */
  lemma SetThenGet(bytes: seq<byte>, at: nat, option: byte, data: seq<byte>, code: byte)
    requires Terminated(bytes, at) && option != END && |data| < 0x100 && EndAt(bytes, at) + |data| + 3 <= |bytes|
    ensures var after := WithOption(bytes, at, option, data);
      && Terminated(after, at)
      && (Find(Items(bytes, at), option).None? ==> Find(Items(after, at), option) == Some(data))
      && (code != option || Find(Items(bytes, at), code).Some? ==> Find(Items(after, at), code) == Find(Items(bytes, at), code))
  {
    OptionIsAppended(bytes, at, option, data);
    FindAppended(Items(bytes, at), Item(option, data), option);
    FindAppended(Items(bytes, at), Item(option, data), code);
  }

  /** The size returned in one byte is how far the end marker moved exactly when the data has
      fewer than 254 bytes. */
  lemma SizeCountedExactly(bytes: seq<byte>, at: nat, option: byte, data: seq<byte>)
    requires Terminated(bytes, at) && option != END && |data| < 0x100 && EndAt(bytes, at) + |data| + 3 <= |bytes|
    ensures var after := WithOption(bytes, at, option, data);
      Terminated(after, at) && (EndAt(after, at) == EndAt(bytes, at) + (2 + |data|) % 0x100 <==> |data| < 254)
  {
    OptionIsAppended(bytes, at, option, data);
  }

  // ---- lists with pads ---------------------------------------------------------------------------

  const PAD: byte := 0

  /** Walking as section 2 of RFC 2132 has it, where a pad is a single zero byte, an end marker is
      met inside the buffer. */
  predicate RfcTerminated(bytes: seq<byte>, at: nat)
    decreases |bytes| - at
  {
    at < |bytes| &&
    if bytes[at] == END then true
    else if bytes[at] == PAD then RfcTerminated(bytes, at + 1)
    else at + 1 < |bytes| && RfcTerminated(bytes, at + bytes[at + 1] + 2)
  }

  /** The options met on that walk. */
  function RfcItems(bytes: seq<byte>, at: nat): (items: seq<Item>)
    requires RfcTerminated(bytes, at)
    ensures forall i :: 0 <= i < |items| ==> items[i].code != PAD
    decreases |bytes| - at
  {
    if bytes[at] == END then []
    else if bytes[at] == PAD then RfcItems(bytes, at + 1)
    else
      var next := at + bytes[at + 1] + 2;
      assert RfcTerminated(bytes, next);
      [Item(bytes[at], bytes[at + 2..next])] + RfcItems(bytes, next)
  }

  /** No pad is met on that walk. */
  predicate PadFree(bytes: seq<byte>, at: nat)
    requires RfcTerminated(bytes, at)
    decreases |bytes| - at
  {
    bytes[at] == END || (bytes[at] != PAD && PadFree(bytes, at + bytes[at + 1] + 2))
  }

  /** The code reads a list as the RFC means it exactly when there is no pad in it: it takes the
      byte after a pad for a length. */
  lemma {:induction false} ReadAsMeantExactlyWithoutPads(bytes: seq<byte>, at: nat)
    requires RfcTerminated(bytes, at)
    ensures Terminated(bytes, at) && Items(bytes, at) == RfcItems(bytes, at) <==> PadFree(bytes, at)
    decreases |bytes| - at
  {
    if bytes[at] == PAD {
      if Terminated(bytes, at) {
        ItemAt(bytes, at);
        assert Items(bytes, at)[0].code == PAD;
      }
    } else if bytes[at] != END {
      var next := at + bytes[at + 1] + 2;
      ReadAsMeantExactlyWithoutPads(bytes, next);
      if Terminated(bytes, at) {
        ItemAt(bytes, at);
        assert RfcItems(bytes, at)[1..] == RfcItems(bytes, next);
      }
    }
  }

  /** A list with one pad and a message type that is not even walked to its end. */
  lemma PadIsMisread()
    ensures !Terminated([0, 53, 1, 5, END], 0)
    ensures RfcTerminated([0, 53, 1, 5, END], 0) && RfcItems([0, 53, 1, 5, END], 0) == [Item(53, [5])]
  {
    var bytes := [0, 53, 1, 5, END];
    assert !Terminated(bytes, 55);
    assert RfcTerminated(bytes, 4) && RfcItems(bytes, 4) == [];
    assert RfcTerminated(bytes, 1) && bytes[3..4] == [5];
    assert RfcItems(bytes, 1) == [Item(53, bytes[3..4])] + RfcItems(bytes, 4);
  }
}
