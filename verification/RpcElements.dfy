/** The elements of an RPC string field, as the bytes of `struct.pack` stand for them. */
module RpcElements {
  import opened Bytes
  import opened Mask
  import opened RpcCodec

  /** The size of an element type in native mode; 0 for a letter with no field tag of its own. */
  function Width(ch: char): nat {
    if ch in "Bb?" then 1 else if ch in "Hhe" then 2 else if ch in "Iif" then 4 else 0
  }

  /** The library can store the element in this type. */
  ghost predicate Storable(floats: Floats, ch: char, v: int) {
    var limit: int := Pow256(Width(ch));
    if ch in "BHI" then 0 <= v < limit
    else if ch in "bhi" then -limit <= 2 * v < limit
    else ch == '?' || floats(ch, v).Ok?
  }

  /** These bytes, least significant first, are the element: two's complement, 0 or 1 for a truth value. */
  ghost predicate Stores(floats: Floats, ch: char, v: int, cell: seq<u8>) {
    var limit: int := Pow256(Width(ch));
    && |cell| == Width(ch) && Storable(floats, ch, v)
    && if ch in "BHIbhi" then FromLe(cell) == v % limit
       else if ch == '?' then FromLe(cell) == if v == 0 then 0 else 1
       else FromLe(cell) == floats(ch, v).value % limit
  }

  /** The bytes at place `i` are element `i`. */
  ghost predicate StoresAt(floats: Floats, ch: char, elems: seq<int>, bytes: seq<u8>, i: nat)
    requires i < |elems|
  {
    var w := Width(ch);
    i * w + w <= |bytes| && Stores(floats, ch, elems[i], bytes[i * w..i * w + w])
  }

  /** The elements one after the other. */
  ghost predicate StoresAll(floats: Floats, ch: char, elems: seq<int>, bytes: seq<u8>) {
    |bytes| == |elems| * Width(ch) && forall i :: 0 <= i < |elems| ==> StoresAt(floats, ch, elems, bytes, i)
  }

  lemma WidthIs(ch: char)
    ensures ElemTypeOf(ch).Elem? <==> Width(ch) > 0
    ensures ElemTypeOf(ch).Elem? ==> ElemTypeOf(ch).size == Width(ch)
  {
  }

  /** The bytes of any whole number, in two's complement. */
  lemma {:induction false} ElemBytesWrap(v: int, size: nat)
    ensures FromLe(ElemBytes(v, size)) == v % Pow256(size)
    decreases size
  {
    if size > 0 {
      ElemBytesWrap(v / 256, size - 1);
      var s := ElemBytes(v, size);
      assert s[0] == v % 256 && s[1..] == ElemBytes(v / 256, size - 1);
      DigitSplit(v, Pow256(size - 1));
    } else {
      assert ElemBytes(v, 0) == [] && Pow256(0) == 1;
    }
  }

  /** The lowest digit of a remainder, and the others. */
  lemma DigitSplit(v: int, limit: nat)
    requires limit > 0
    ensures v % (256 * limit) == v % 256 + 256 * (v / 256 % limit)
  {
    var q, r := v / 256 / limit, v / 256 % limit;
    assert v / 256 == limit * q + r;
    assert 256 * (limit * q) == (256 * limit) * q;
    ModUnique(v, 256 * limit, q, 256 * r + v % 256);
  }

  lemma ElemBytesValue(n: nat, size: nat)
    requires n < Pow256(size)
    ensures FromLe(ElemBytes(n, size)) == n
  {
    ElemBytesWrap(n, size);
    ModUnique(n, Pow256(size), 0, n);
  }

  /** One element, in the bytes the writer gives it. */
  lemma ElemStored(floats: Floats, v: int, ch: char)
    requires ElemTypeOf(ch).Elem?
    ensures ElemValue(floats, v, ch).Ok? <==> Storable(floats, ch, v)
    ensures ElemValue(floats, v, ch).Ok? ==>
              Stores(floats, ch, v, ElemBytes(ElemValue(floats, v, ch).value, ElemTypeOf(ch).size))
  {
    if ElemValue(floats, v, ch).Ok? { ElemBytesWrap(ElemValue(floats, v, ch).value, ElemTypeOf(ch).size); }
  }

  /** A later cell lies in the rest, one place earlier. */
  lemma CellShift(cell: seq<u8>, rest: seq<u8>, i: nat, n: nat)
    requires 0 < i < n && |rest| == (n - 1) * |cell|
    ensures var w, bytes := |cell|, cell + rest;
            && (i - 1) * w + w == i * w && i * w + w <= |bytes|
            && bytes[i * w..i * w + w] == rest[(i - 1) * w..(i - 1) * w + w]
  {
    var w := |cell|;
    OneMore(i - 1, w);
    if w > 0 { MulBound(w, n - i); }
    assert n * w == i * w + (n - i) * w && n * w == (n - 1) * w + w;
  }

  lemma StoresCons(floats: Floats, ch: char, elems: seq<int>, cell: seq<u8>, rest: seq<u8>)
    requires elems != [] && Stores(floats, ch, elems[0], cell) && StoresAll(floats, ch, elems[1..], rest)
    ensures StoresAll(floats, ch, elems, cell + rest)
  {
    OneMore(|elems[1..]|, Width(ch));
    forall i | 0 <= i < |elems|
      ensures StoresAt(floats, ch, elems, cell + rest, i)
    {
      if i == 0 { FirstStored(floats, ch, elems, cell, rest); } else { LaterStored(floats, ch, elems, cell, rest, i); }
    }
  }

  lemma FirstStored(floats: Floats, ch: char, elems: seq<int>, cell: seq<u8>, rest: seq<u8>)
    requires elems != [] && Stores(floats, ch, elems[0], cell)
    ensures StoresAt(floats, ch, elems, cell + rest, 0)
  {
    var w := Width(ch);
    assert 0 * w == 0 && (cell + rest)[0..w] == cell;
  }

  lemma LaterStored(floats: Floats, ch: char, elems: seq<int>, cell: seq<u8>, rest: seq<u8>, i: nat)
    requires 0 < i < |elems| && Stores(floats, ch, elems[0], cell) && StoresAll(floats, ch, elems[1..], rest)
    ensures StoresAt(floats, ch, elems, cell + rest, i)
  {
    CellShift(cell, rest, i, |elems|);
    assert StoresAt(floats, ch, elems[1..], rest, i - 1);
  }

  /** The writer packs a list exactly when each element can be stored, and then stores them all, in order. */
  lemma {:induction false} PayloadStores(floats: Floats, elems: seq<int>, ch: char)
    requires ElemTypeOf(ch).Elem?
    ensures Payload(floats, elems, ch).Ok? <==> forall i :: 0 <= i < |elems| ==> Storable(floats, ch, elems[i])
    ensures Payload(floats, elems, ch).Ok? ==> StoresAll(floats, ch, elems, Payload(floats, elems, ch).value)
    decreases |elems|
  {
    if elems != [] {
      ElemStored(floats, elems[0], ch);
      PayloadStores(floats, elems[1..], ch);
      assert forall i :: 0 < i < |elems| ==> elems[i] == elems[1..][i - 1];
      if Payload(floats, elems, ch).Ok? {
        StoresCons(floats, ch, elems, ElemBytes(ElemValue(floats, elems[0], ch).value, ElemTypeOf(ch).size),
                   Payload(floats, elems[1..], ch).value);
      }
    }
  }

  /** A string of octets (`s`, or `S` with the letter `B`) is sent as it is. */
  lemma OctetsStored(floats: Floats, elems: seq<int>, bytes: seq<u8>)
    requires StoresAll(floats, 'B', elems, bytes)
    ensures bytes == elems
  {
    forall i | 0 <= i < |elems|
      ensures bytes[i] == elems[i]
    {
      assert StoresAt(floats, 'B', elems, bytes, i);
      assert bytes[i * 1..i * 1 + 1] == [bytes[i]];
      FromLeOne(bytes[i]);
    }
  }

  lemma FromLeOne(b: u8)
    ensures var n: int := b; FromLe([b]) == n && Pow256(1) == 256
  {
    assert [b][1..] == [] && FromLe([]) == 0;
    assert Pow256(0) == 1;
  }
}
