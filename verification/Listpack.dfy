/** The serialised list of src/list/listpack.c: a header with the number of bytes and of elements,
    the entries, and an end mark.  The ghost field `bodies` is the list of encoded elements. */
module Listpack {
  import opened Bytes
  import opened Options
  import opened LittleEndian
  import opened Memory
  import opened Decimals
  import opened ListpackEntries
  import opened ListpackLayout

  const LP_HDR_NUMELE_UNKNOWN: nat := 0xFFFF

  datatype Where = Before | After | Replace

  /** The header fields of a buffer. */
  ghost predicate Header(m: seq<Byte>, total: nat, numele: nat) {
    |m| >= LP_HDR_SIZE && Unsigned(m[..4]) == total && Unsigned(m[4..6]) == numele
  }

  /** The element count is exact or unknown. */
  predicate Counted(numele: nat, n: nat) {
    numele == n || numele == LP_HDR_NUMELE_UNKNOWN
  }

  class Listpack {
    var lp: array<Byte>
    ghost var bodies: seq<Str>

    ghost predicate Valid()
      reads this, lp
    {
      && Holds(lp[..], bodies) && lp.Length <= UINT32_MAX
      && Unsigned(lp[..4]) == lp.Length && Counted(Unsigned(lp[4..6]), |bodies|)
    }

    /** The elements, as strings. */
    ghost function List(): (s: seq<Str>)
      requires Valid()
      reads this, lp
    {
      Elements(bodies)
    }

    /** Where the i-th element starts. */
    ghost function At(i: nat): nat
      requires Valid() && i <= |bodies|
      reads this, lp
    {
      Offset(bodies, i)
    }

    function TotalBytes(): nat
      requires lp.Length >= LP_HDR_SIZE
      reads this, lp
    {
      Unsigned(lp[..4])
    }

    function NumElements(): nat
      requires lp.Length >= LP_HDR_SIZE
      reads this, lp
    {
      Unsigned(lp[4..6])
    }

    constructor ()
      ensures Valid() && List() == [] && fresh(lp)
    {
      var a := new Byte[LP_HDR_SIZE + 1];
      bodies := [];
      lp := a;
      new;
      SetTotalBytes(LP_HDR_SIZE + 1);
      SetNumElements(0);
      lp[LP_HDR_SIZE] := LP_EOF;
      assert lp[..] == lp[..LP_HDR_SIZE] + Layout([]) + [LP_EOF];
    }

    method SetTotalBytes(v: nat)
      requires lp.Length >= LP_HDR_SIZE && v <= UINT32_MAX
      modifies lp
      ensures Header(lp[..], v, old(Unsigned(lp[4..6]))) && lp[LP_HDR_SIZE..] == old(lp[LP_HDR_SIZE..])
    {
      Widths();
      DecodeEncode(v, 4);
      MemCopy(lp, 0, Encode(v, 4));
      assert lp[..4] == Encode(v, 4) && lp[4..6] == old(lp[4..6]);
    }

    method SetNumElements(v: nat)
      requires lp.Length >= LP_HDR_SIZE && v <= LP_HDR_NUMELE_UNKNOWN
      modifies lp
      ensures Header(lp[..], old(Unsigned(lp[..4])), v) && lp[LP_HDR_SIZE..] == old(lp[LP_HDR_SIZE..])
    {
      Widths();
      DecodeEncode(v, 2);
      MemCopy(lp, 4, Encode(v, 2));
      assert lp[4..6] == Encode(v, 2) && lp[..4] == old(lp[..4]);
    }

    /** The bytes of the header and the end mark: size and count, least significant bytes first. */
    lemma BufferFormat()
      requires Valid()
      ensures lp.Length >= 7 && lp[lp.Length - 1] == 0xFF
      ensures lp.Length == lp[0] as nat + 0x100 * (lp[1] as nat) + 0x1_0000 * (lp[2] as nat)
              + 0x100_0000 * (lp[3] as nat)
      ensures var n := lp[4] as nat + 0x100 * (lp[5] as nat); n == |bodies| || n == 0xFFFF
      ensures lp[6..lp.Length - 1] == Layout(bodies)
    {
      hide Unsigned, IsBody, Layout;
      BytesOf(lp[..4]);
      BytesOf(lp[4..6]);
      var m := lp[..];
      assert m[..4] == lp[..4] && m[4..6] == lp[4..6];
      assert m == m[..LP_HDR_SIZE] + Layout(bodies) + [LP_EOF];
    }

    /** The offset behind the entry at `p`. */
    method Skip(p: nat, ghost i: nat) returns (q: nat)
      requires Valid() && i < |bodies| && p == At(i)
      ensures q == At(i + 1)
    {
      EntryReads(lp[..], bodies, i);
      var entrylen := EncodedSize(lp[..], p);
      return p + entrylen + BackSize(entrylen);
    }

    method Next(p: nat, ghost i: nat) returns (q: Option<nat>)
      requires Valid() && i < |bodies| && p == At(i)
      ensures q == if i + 1 < |bodies| then Some(At(i + 1)) else None
    {
      var r := Skip(p, i);
      MarkOrEntry(i + 1);
      if lp[r] == LP_EOF {
        return None;
      }
      return Some(r);
    }

    lemma EntryEnds(i: nat)
      requires Valid() && i < |bodies|
      ensures IsBody(bodies[i]) && |bodies[i]| < 0x8_0000_0000
      ensures At(i) + |bodies[i]| + BackSize(|bodies[i]|) == At(i + 1)
    {
      EntryReads(lp[..], bodies, i);
    }

    lemma MarkOrEntry(i: nat)
      requires Valid() && i <= |bodies|
      ensures LP_HDR_SIZE <= At(i) < lp.Length && (lp[At(i)] == LP_EOF <==> i == |bodies|)
      ensures i == |bodies| ==> At(i) == lp.Length - 1
    {
      hide Holds, Offset;
      if i < |bodies| { EntryReads(lp[..], bodies, i); } else { CutAtEnd(lp[..], bodies); }
      assert lp[..][At(i)] == lp[At(i)];
    }

    method Prev(p: nat, ghost i: nat) returns (q: Option<nat>)
      requires Valid() && i <= |bodies| && p == At(i)
      ensures q == if i > 0 then Some(At(i - 1)) else None
    {
      hide IsBody, EndsInField, FieldValue, BackSize, ContentAt, EncodedSize, HeaderSize, Layout;
      FirstOffset(bodies, i);
      if p == LP_HDR_SIZE {
        return None;
      }
      BacklenBefore(lp[..], bodies, i - 1);
      EntryEnds(i - 1);
      MarkOrEntry(i);
      var prevlen := DecodeBacklen(lp[..], p - 1, BackSize(|bodies[i - 1]|));
      return Some(p - 1 - (prevlen + BackSize(prevlen)) + 1);
    }

    method First() returns (p: Option<nat>)
      requires Valid()
      ensures p == if |bodies| > 0 then Some(At(0)) else None
    {
      MarkOrEntry(0);
      FirstOffset(bodies, 0);
      if lp[LP_HDR_SIZE] == LP_EOF {
        return None;
      }
      return Some(LP_HDR_SIZE);
    }

    method Last() returns (p: Option<nat>)
      requires Valid()
      ensures p == if |bodies| > 0 then Some(At(|bodies| - 1)) else None
    {
      MarkOrEntry(|bodies|);
      p := Prev(TotalBytes() - 1, |bodies|);
    }

    /** The element at `p`: its value, or its text when the caller passes a buffer. */
    method Get(p: nat, intbuf: bool, ghost i: nat) returns (r: Content)
      requires Valid() && i < |bodies| && p == At(i)
      ensures IsBody(bodies[i]) && r == if intbuf then Text(List()[i]) else ContentAt(bodies[i], 0)
    {
      hide Decimal, ContentAt, EncodedSize, HeaderSize, Layout;
      EntryReads(lp[..], bodies, i);
      BodyStarts(bodies[i]);
      r := Decode(lp[..], p);
      if intbuf && r.Number? {
        DecimalLength(r.v);
        assert |Decimal(r.v)| < LP_INTBUF_SIZE;
        r := Text(Decimal(r.v));
      }
    }

    /** The number of elements; a scan stores it in the header when it fits. */
    method Length() returns (count: nat)
      requires Valid()
      modifies lp
      ensures Valid() && List() == old(List()) && count == |bodies|
      ensures count < LP_HDR_NUMELE_UNKNOWN ==> NumElements() == count
    {
      var numele := NumElements();
      if numele != LP_HDR_NUMELE_UNKNOWN {
        return numele;
      }
      count := 0;
      var p := First();
      while p.Some?
        invariant Valid() && lp[..] == old(lp[..])
        invariant count <= |bodies| && p == if count < |bodies| then Some(At(count)) else None
        decreases |bodies| - count
      {
        p := Next(p.value, count);
        count := count + 1;
      }
      if count < LP_HDR_NUMELE_UNKNOWN {
        SetNumElements(count);
        SameEntries(old(lp[..]), lp[..], bodies);
      }
    }

    /** The element with this index, counted from the end when negative. */
    method Seek(index0: int) returns (p: Option<nat>)
      requires Valid()
      ensures var i := if index0 < 0 then |bodies| + index0 else index0;
              p == if 0 <= i < |bodies| then Some(At(i)) else None
    {
      hide Offset;
      MarkOrEntry(0);
      var index, forward := index0, true;
      var numele := NumElements();
      if numele != LP_HDR_NUMELE_UNKNOWN {
        if index < 0 { index := numele + index; }
        if index < 0 { return None; }
        if index >= numele { return None; }
        if index > numele / 2 {
          forward := false;
          index := index - numele;
        }
      } else if index < 0 {
        forward := false;
      }
      if forward {
        ghost var i := 0;
        ghost var goal := index;
        p := First();
        while index > 0 && p.Some?
          invariant i + index == goal && 0 <= index && 0 <= i <= |bodies|
          invariant p == if i < |bodies| then Some(At(i)) else None
        {
          p := Next(p.value, i);
          index, i := index - 1, i + 1;
        }
      } else {
        ghost var i := |bodies| - 1;
        ghost var goal := |bodies| + index;
        p := Last();
        while index < -1 && p.Some?
          invariant index <= -1 && -1 <= i < |bodies| && goal == i + 1 + index
          invariant p == if i >= 0 then Some(At(i)) else None
          decreases -index
        {
          p := Prev(p.value, i);
          index, i := index + 1, i - 1;
        }
      }
    }

    /** Reallocate and move the bytes behind the place of the edit, src/list/listpack.c:652-681:
        `r` bytes at `poff` give way to `n`. */
    method MakeRoom(poff: nat, r: nat, n: nat)
      requires poff + r <= lp.Length
      modifies this`lp, lp
      ensures lp.Length == old(lp.Length) + n - r && (lp == old(lp) || fresh(lp))
      ensures lp[..poff] == old(lp[..poff]) && lp[poff + n..] == old(lp[poff + r..])
    {
      ghost var m := lp[..];
      var before, after := lp.Length, lp.Length + n - r;
      if after > before {
        lp := Realloc(lp, after);
      }
      ghost var c := lp[..];
      MemMove(lp, poff + n, poff + r, before - poff - r);
      ghost var d := lp[..];
      if after < before {
        lp := Realloc(lp, after);
      }
      RoomMade(m, c, d, lp[..], poff, r, n);
      assert lp[..poff] == lp[..][..poff] && lp[poff + n..] == lp[..][poff + n..];
      assert m[..poff] == old(lp[..poff]) && m[poff + r..] == old(lp[poff + r..]);
    }

    /** Write an encoded string, src/list/listpack.c:354-370. */
    method EncodeString(dst: nat, s: Str)
      requires |s| <= UINT32_MAX && dst + |StrBody(s)| <= lp.Length
      modifies lp
      ensures lp[..] == Patched(old(lp[..]), dst, StrBody(s))
    {
      hide Encode, Patched;
      var len := |s|;
      var head;
      if len < 64 {
        head := [LP_ENCODING_6BIT_STR + len];
      } else if len < 4096 {
        head := [LP_ENCODING_12BIT_STR + len / 256, len % 256];
      } else {
        SpreadFour(len);
        head := [LP_ENCODING_32BIT_STR, len % 256, len / 256 % 256, len / 0x1_0000 % 256, len / 0x100_0000];
      }
      assert head + s == StrBody(s);
      PatchedTwice(lp[..], dst, head, s);
      MemCopy(lp, dst, head);
      MemCopy(lp, dst + |head|, s);
    }

    /** Write the entry, src/list/listpack.c:683-699. */
    method StoreEntry(dst: nat, ele: Option<Str>, isInt: bool, intenc: seq<Byte>, enclen: nat, backlen: seq<Byte>,
                      ghost b: Option<Str>)
      requires EntryParts(ele, isInt, intenc, enclen, backlen, b) && dst + |NewBytes(b)| <= lp.Length
      modifies lp
      ensures lp[..] == Patched(old(lp[..]), dst, NewBytes(b))
    {
      hide StrBody, IsBody, Backlen, Encodes, Patched, NoInt64;
      if ele.Some? {
        BodySize(b.value);
        PatchedTwice(lp[..], dst, b.value, backlen);
        if isInt {
          MemCopy(lp, dst, intenc);
        } else {
          EncodeString(dst, ele.value);
        }
        MemCopy(lp, dst + enclen, backlen);
      } else {
        NothingPatched(lp[..], dst);
      }
    }

    /** The header after the edit, src/list/listpack.c:701-711. */
    method UpdateHeader(ele: Option<Str>, where: Where, newBytes: nat, ghost n: nat)
      requires lp.Length >= LP_HDR_SIZE && newBytes <= UINT32_MAX && Counted(Unsigned(lp[4..6]), n)
      requires ele == None ==> where == Replace && n > 0
      modifies lp
      ensures lp[LP_HDR_SIZE..] == old(lp[LP_HDR_SIZE..])
      ensures Header(lp[..], newBytes,
                     if old(Unsigned(lp[4..6])) == LP_HDR_NUMELE_UNKNOWN then LP_HDR_NUMELE_UNKNOWN
                     else if ele == None then n - 1 else if where == Replace then n else n + 1)
    {
      hide Unsigned;
      CountSmall(lp[4..6]);
      if where != Replace || ele == None {
        var numele := NumElements();
        if numele != LP_HDR_NUMELE_UNKNOWN {
          if ele.Some? {
            SetNumElements(numele + 1);
          } else {
            SetNumElements(numele - 1);
          }
        }
      }
      assert lp[..][4..6] == lp[4..6];
      SetTotalBytes(newBytes);
    }

    /** The memory work of an edit: `replacedLen` bytes at `poff` give way to the new entry. */
    method SpliceBytes(poff: nat, replacedLen: nat, where: Where, ele: Option<Str>, isInt: bool, intenc: seq<Byte>,
                       enclen: nat, backlen: seq<Byte>, newBytes: nat, ghost n: nat, ghost b: Option<Str>)
      returns (newp: Option<nat>)
      requires LP_HDR_SIZE <= poff && poff + replacedLen < lp.Length
      requires EntryParts(ele, isInt, intenc, enclen, backlen, b) && (b.Some? ==> IsBody(b.value))
      requires newBytes == lp.Length + |NewBytes(b)| - replacedLen && newBytes <= UINT32_MAX
      requires Counted(Unsigned(lp[4..6]), n) && (ele == None ==> where == Replace && n > 0)
      modifies this`lp, lp
      ensures lp == old(lp) || fresh(lp)
      ensures lp.Length >= LP_HDR_SIZE
      ensures lp[..] == lp[..LP_HDR_SIZE] + old(lp[LP_HDR_SIZE..poff]) + NewBytes(b) + old(lp[poff + replacedLen..])
      ensures lp.Length == newBytes
      ensures newp == if ele == None && old(lp[poff + replacedLen]) == LP_EOF then None else Some(poff)
      ensures Header(lp[..], newBytes,
                     if old(Unsigned(lp[4..6])) == LP_HDR_NUMELE_UNKNOWN then LP_HDR_NUMELE_UNKNOWN
                     else if ele == None then n - 1 else if where == Replace then n else n + 1)
    {
      hide Encodes, IsBody, StrBody, Backlen, NoInt64, Unsigned, NewBytes, Counted;
      ghost var m := lp[..];
      assert m[4..6] == lp[4..6];
      EntryLength(ele, isInt, intenc, enclen, backlen, b);
      MakeRoom(poff, replacedLen, enclen + |backlen|);
      newp := Some(poff);
      ghost var g := lp[..];
      SpliceStart(m, g, poff, replacedLen, enclen + |backlen|);
      if ele == None && lp[poff] == LP_EOF {
        newp := None;
      }
      StoreEntry(poff, ele, isInt, intenc, enclen, backlen, b);
      ghost var g2 := lp[..];
      SpliceForm(m, g, g2, poff, replacedLen, NewBytes(b));
      assert g2[4..6] == lp[4..6];
      UpdateHeader(ele, where, newBytes, n);
      FormKept(m, g2, lp[..], poff, replacedLen, NewBytes(b));
    }

    /** An edit of the list: `r` elements from place `i` on give way to at most one. */
    method Splice(poff: nat, replacedLen: nat, where: Where, ele: Option<Str>, isInt: bool, intenc: seq<Byte>,
                  enclen: nat, backlen: seq<Byte>, newBytes: nat, ghost i: nat, ghost r: nat, ghost b: Option<Str>)
      returns (newp: Option<nat>)
      requires Valid() && i + r <= |bodies| && poff == At(i) && replacedLen == At(i + r) - At(i)
      requires EntryParts(ele, isInt, intenc, enclen, backlen, b) && (b.Some? ==> IsBody(b.value))
      requires newBytes == lp.Length + |NewBytes(b)| - replacedLen && newBytes <= UINT32_MAX
      requires r == (if where == Replace then 1 else 0) && (ele == None ==> where == Replace)
      modifies this, lp
      ensures lp == old(lp) || fresh(lp)
      ensures Valid() && bodies == Edited(old(bodies), i, r, b) && List() == Edited(old(List()), i, r, ele)
      ensures newp == if i < |bodies| then Some(At(i)) else None
      ensures NumElements() == (if old(NumElements()) == LP_HDR_NUMELE_UNKNOWN then LP_HDR_NUMELE_UNKNOWN else |bodies|)
    {
      hide Offset, Encodes, IsBody, StrBody, Backlen, NoInt64, Elements, Unsigned, NewBytes, Layout, Element;
      ghost var m := lp[..];
      OffsetsGrow(bodies, i, i + r);
      MarkOrEntry(i + r);
      MarkOrEntry(i);
      newp := SpliceBytes(poff, replacedLen, where, ele, isInt, intenc, enclen, backlen, newBytes, |bodies|, b);
      assert m[poff + replacedLen..] == old(lp[poff + replacedLen..])
             && m[LP_HDR_SIZE..poff] == old(lp[LP_HDR_SIZE..poff]);
      Spliced(m, lp[..], bodies, i, r, b);
      ElementsEdited(bodies, i, r, b, ele);
      bodies := Edited(bodies, i, r, b);
      assert lp[..][..4] == lp[..4] && lp[..][4..6] == lp[4..6];
    }

    /** Insert, replace or, without an element, delete at the element `p0`.  Fails exactly when the
        list would be longer than 2^32 - 1 bytes. */
    method Insert(ele: Option<Str>, p0: nat, where0: Where, ghost i0: nat)
      returns (ok: bool, newp: Option<nat>, ghost b: Option<Str>)
      requires Valid() && i0 <= |bodies| && p0 == At(i0)
      requires ele == None || where0 != Before ==> i0 < |bodies|
      requires ele.Some? ==> |ele.value| <= UINT32_MAX - 5
      modifies this, lp
      ensures !ok ==> Valid() && lp == old(lp) && lp[..] == old(lp[..]) && bodies == old(bodies)
      ensures lp == old(lp) || fresh(lp)
      ensures b.Some? <==> ele.Some?
      ensures b.Some? ==> IsBody(b.value) && Encodes(b.value, ele.value)
      ensures var (i, r) := (Target(ele, where0, i0), Taken(ele, where0));
              ok <==> old(lp.Length) + |NewBytes(b)| - old(At(i + r) - At(i)) <= UINT32_MAX
      ensures var (i, r) := (Target(ele, where0, i0), Taken(ele, where0));
              ok ==> Valid() && bodies == Edited(old(bodies), i, r, b)
      ensures var (i, r) := (Target(ele, where0, i0), Taken(ele, where0));
              ok ==> List() == Edited(old(List()), i, r, ele)
      ensures ok ==> newp == var i := Target(ele, where0, i0); if i < |bodies| then Some(At(i)) else None
      ensures ok ==> NumElements() == (if old(NumElements()) == LP_HDR_NUMELE_UNKNOWN then LP_HDR_NUMELE_UNKNOWN
              else |bodies|)
    {
      hide Offset, Encodes, IsBody, StrBody, Backlen, BackSize, EncodedSize, HeaderSize, ContentAt, Elements, Unsigned,
           Element,
           NewBytes, Layout;
      var where, p := where0, p0;
      ghost var i, r := Target(ele, where0, i0), Taken(ele, where0);
      if ele == None {
        where := Replace;
      }
      if where == After {
        p := Skip(p, i0);
        where := Before;
      }
      var poff := p;
      var isInt, intenc, enclen, backlen := false, [], 0, [];
      b := None;
      if ele.Some? {
        isInt, intenc, enclen := EncodeGetType(ele.value);
        b := Some(Stored(ele.value, isInt, intenc));
        BodySize(b.value);
        backlen := EncodeBacklen(enclen);
      }
      EntryLength(ele, isInt, intenc, enclen, backlen, b);
      var oldBytes, replacedLen := TotalBytes(), 0;
      if where == Replace {
        EntryEnds(i);
        EntryReads(lp[..], bodies, i);
        replacedLen := EncodedSize(lp[..], p);
        replacedLen := replacedLen + BackSize(replacedLen);
      }
      var newBytes := oldBytes + enclen + |backlen| - replacedLen;
      if newBytes > UINT32_MAX {
        return false, None, b;
      }
      newp := Splice(poff, replacedLen, where, ele, isInt, intenc, enclen, backlen, newBytes, i, r, b);
      ok := true;
    }

    /** Append an element. */
    method Append(ele: Str) returns (ok: bool)
      requires Valid() && |ele| <= UINT32_MAX - 5
      modifies this, lp
      ensures Valid() && (lp == old(lp) || fresh(lp))
      ensures List() == if ok then old(List()) + [ele] else old(List())
    {
      hide Offset, IsBody, Elements, Element;
      MarkOrEntry(|bodies|);
      var newp;
      ghost var b;
      ok, newp, b := Insert(Some(ele), TotalBytes() - 1, Before, |bodies|);
    }

    /** Delete the element at `p`; the result is the one after it. */
    method Delete(p: nat, ghost i: nat) returns (newp: Option<nat>)
      requires Valid() && i < |bodies| && p == At(i)
      modifies this, lp
      ensures Valid() && (lp == old(lp) || fresh(lp))
      ensures List() == old(List())[..i] + old(List())[i + 1..]
      ensures newp == if i < |bodies| then Some(At(i)) else None
    {
      hide Offset, IsBody, Elements, Element;
      var ok;
      ghost var b;
      OffsetsGrow(bodies, i, i + 1);
      ghost var was := List();
      ok, newp, b := Insert(None, p, Replace, i);
      assert Edited(was, i, 1, None) == was[..i] + was[i + 1..];
    }
  }

  /** The header does not matter to the entries. */
  lemma SameEntries(m: seq<Byte>, n: seq<Byte>, bs: seq<Str>)
    requires Holds(m, bs) && |n| == |m| && n[LP_HDR_SIZE..] == m[LP_HDR_SIZE..]
    ensures Holds(n, bs)
  {
    hide Layout;
    assert n == n[..LP_HDR_SIZE] + n[LP_HDR_SIZE..];
  }

  const LP_INTBUF_SIZE: nat := 21

  /** Decode the element at `p`, src/list/listpack.c:493-560. */
  method Decode(m: seq<Byte>, p: nat) returns (r: Content)
    requires p < |m| && p + HeaderSize(m[p]) <= |m| && p + EncodedSize(m, p) <= |m| && m[p] <= LP_ENCODING_64BIT_INT
    requires m[p] == LP_ENCODING_32BIT_STR ==> EncodedSize(m, p) >= 5
    ensures r == ContentAt(m, p) && (r.Number? ==> Int64(r.v))
  {
    hide Unsigned, Signed;
    var c := m[p];
    if Is6BitStr(c) {
      return Text(m[p + 1..p + EncodedSize(m, p)]);
    } else if Is12BitStr(c) {
      return Text(m[p + 2..p + EncodedSize(m, p)]);
    } else if c == LP_ENCODING_32BIT_STR {
      return Text(m[p + 5..p + EncodedSize(m, p)]);
    }
    var uval, negstart, negmax;
    if Is7BitUint(c) {
      uval, negstart, negmax := c % 0x80, UINT64_MAX, 0;
    } else if Is13BitInt(c) {
      uval, negstart, negmax := (c as int % 0x20) * 256 + m[p + 1], 0x1000, 8191;
    } else {
      var n := EncodedSize(m, p) - 1;
      var b := m[p + 1..p + 1 + n];
      Widths();
      SignRule(b);
      SignedFits(b);
      uval := Unsigned(b);
      if c == LP_ENCODING_16BIT_INT {
        negstart, negmax := 0x8000, 0xFFFF;
      } else if c == LP_ENCODING_24BIT_INT {
        negstart, negmax := 0x80_0000, 0xFF_FFFF;
      } else if c == LP_ENCODING_32BIT_INT {
        negstart, negmax := 0x8000_0000, 0xFFFF_FFFF;
      } else {
        negstart, negmax := 0x8000_0000_0000_0000, UINT64_MAX;
      }
    }
    var val;
    if uval >= negstart {
      val := -(negmax - uval) - 1;
    } else {
      val := uval;
    }
    return Number(val);
  }

  /** The unsigned value of the bytes after the first, and the sign rule of the source. */
  lemma SignRule(b: seq<Byte>)
    ensures var (u, half) := (Unsigned(b), Pow256(|b|) / 2);
            b != [] ==> Signed(b) == (if u >= half then -(Pow256(|b|) - 1 - u) - 1 else u)
  {
    if b != [] { assert Pow256(|b|) == 256 * Pow256(|b| - 1); }
  }

  /** The place of the edit, and the number of elements that give way. */
  function Target(ele: Option<Str>, where: Where, i: nat): nat {
    if ele.Some? && where == After then i + 1 else i
  }

  function Taken(ele: Option<Str>, where: Where): nat {
    if ele == None || where == Replace then 1 else 0
  }

  /** The bytes stored for an element. */
  ghost function Stored(s: Str, isInt: bool, intenc: seq<Byte>): (b: Str)
    requires |s| <= UINT32_MAX - 5
    requires if isInt then Encodes(intenc, s) else NoInt64(s)
    ensures IsBody(b) && Encodes(b, s) && Element(b) == s
  {
    var b := if isInt then intenc else StrBody(s);
    assert Encodes(b, s);
    EncodedReads(b, s);
    b
  }

  /** The encoded element and its length field, as `Insert` has them before it moves memory. */
  ghost predicate EntryParts(ele: Option<Str>, isInt: bool, intenc: seq<Byte>, enclen: nat, backlen: seq<Byte>,
                             b: Option<Str>) {
    && (b.Some? <==> ele.Some?)
    && if ele == None then enclen == 0 && backlen == []
       else
         && |ele.value| <= UINT32_MAX - 5 && IsBody(b.value) && Encodes(b.value, ele.value)
            && Element(b.value) == ele.value
         && b.value == (if isInt then intenc else StrBody(ele.value))
         && enclen == |b.value| < 0x8_0000_0000 && backlen == Backlen(enclen)
  }

  lemma EntryLength(ele: Option<Str>, isInt: bool, intenc: seq<Byte>, enclen: nat, backlen: seq<Byte>, b: Option<Str>)
    requires EntryParts(ele, isInt, intenc, enclen, backlen, b)
    ensures b.Some? ==> IsBody(b.value)
    ensures |NewBytes(b)| == enclen + |backlen|
  {
  }

  lemma NothingPatched(m: seq<Byte>, off: nat)
    requires off <= |m|
    ensures Patched(m, off, []) == m
  {
  }

  lemma CountSmall(b: seq<Byte>)
    requires |b| == 2
    ensures Unsigned(b) <= LP_HDR_NUMELE_UNKNOWN
  {
    Widths();
    UnsignedBound(b);
  }

  /** Around the room that was made. */
  lemma SpliceStart(m: seq<Byte>, g: seq<Byte>, poff: nat, r: nat, n: nat)
    requires LP_HDR_SIZE <= poff && poff + r < |m| && |g| == |m| + n - r
    requires g[..poff] == m[..poff] && g[poff + n..] == m[poff + r..]
    ensures n == 0 ==> g[poff] == m[poff + r]
    ensures g[4..6] == m[4..6]
  {
    if n == 0 { assert g[poff..][0] == m[poff + r..][0]; }
    assert g[4..6] == g[..poff][4..6];
  }

  lemma SpliceForm(m: seq<Byte>, g: seq<Byte>, g2: seq<Byte>, poff: nat, r: nat, e: seq<Byte>)
    requires LP_HDR_SIZE <= poff && poff + r <= |m| && |g| == |m| + |e| - r
    requires g[..poff] == m[..poff] && g[poff + |e|..] == m[poff + r..] && g2 == Patched(g, poff, e)
    ensures g2 == m[..poff] + e + m[poff + r..] && g2[4..6] == m[4..6]
  {
    assert g2[4..6] == m[..poff][4..6];
  }

  lemma FormKept(m: seq<Byte>, g2: seq<Byte>, f: seq<Byte>, poff: nat, r: nat, e: seq<Byte>)
    requires LP_HDR_SIZE <= poff && poff + r <= |m| && g2 == m[..poff] + e + m[poff + r..]
    requires |f| == |g2| && f[LP_HDR_SIZE..] == g2[LP_HDR_SIZE..]
    ensures f == f[..LP_HDR_SIZE] + m[LP_HDR_SIZE..poff] + e + m[poff + r..]
  {
    assert g2[LP_HDR_SIZE..] == m[LP_HDR_SIZE..poff] + e + m[poff + r..];
    assert f == f[..LP_HDR_SIZE] + f[LP_HDR_SIZE..];
  }

  lemma RoomMade(m: seq<Byte>, c: seq<Byte>, d: seq<Byte>, f: seq<Byte>, poff: nat, r: nat, n: nat)
    requires poff + r <= |m| && SamePrefix(m, c) && |c| >= |m| && poff + n + (|m| - poff - r) <= |c|
    requires d == Moved(c, poff + r, poff + n, |m| - poff - r)
    requires SamePrefix(d, f) && |f| == |m| + n - r && |f| <= |d|
    ensures f[..poff] == m[..poff] && f[poff + n..] == m[poff + r..]
  {
  }

  lemma FirstOffset(bs: seq<Str>, i: nat)
    requires AllBodies(bs) && i <= |bs|
    ensures Offset(bs, i) == LP_HDR_SIZE <==> i == 0
  {
    hide IsBody, Layout;
    OffsetsGrow(bs, 0, i);
    assert bs[..0] == [];
    LayoutEmpty();
  }

  lemma LayoutEmpty()
    ensures Layout([]) == []
  {
  }
}
