/**
 * The Open Sound Control message that main.cpp builds for every relayed reading
 * (createOSCMessage): an address section, the type-tag section ",s" and one string
 * argument, each padded with NUL characters to a multiple of four bytes.
 *
 * Encode is the reference definition, CreateOscMessage the padding loops of the
 * source proved against it, and Decode a reader that follows the OSC-string rule of
 * the Open Sound Control 1.0 specification (content, at least one NUL, padding to a
 * multiple of four). DecodeEncode states exactly when the two agree.
 */
module Osc {
  import opened Options

  const Nul: char := '\0'

  /** The type-tag string of a message whose only argument is a string. */
  const TypeTag: string := ",s"

  predicate MultipleOf4(n: nat)
  {
    n % 4 == 0
  }

  /** The fewest NULs that bring a section of length n to a multiple of four. */
  function PadCount(n: nat): (k: nat)
    ensures k < 4 && MultipleOf4(n + k)
    ensures forall l :: n <= l < n + k ==> !MultipleOf4(l)
  {
    (4 - n % 4) % 4
  }

  /** n rounded up to a multiple of four. */
  function Pad4(n: nat): nat
  {
    n + PadCount(n)
  }

  function Nuls(k: nat): (z: seq<char>)
    ensures |z| == k && forall i :: 0 <= i < k ==> z[i] == Nul
  {
    seq(k, _ => Nul)
  }

  predicate NulFree(s: seq<char>)
  {
    forall i :: 0 <= i < |s| ==> s[i] != Nul
  }

  /** A section followed by the fewest NULs that make its length a multiple of four. */
  function Aligned(s: seq<char>): (r: seq<char>)
    ensures |r| == Pad4(|s|) && |r| % 4 == 0 && |r| < |s| + 4
    ensures r[..|s|] == s
    ensures forall i :: |s| <= i < |r| ==> r[i] == Nul
  {
    s + Nuls(PadCount(|s|))
  }

  /**
   * The message for one (address, argument) pair. The address section gets no
   * terminator of its own: when the address length is already a multiple of four,
   * the type tag follows it directly.
   */
  function Encode(address: string, argument: string): (m: seq<char>)
    ensures |m| == Pad4(|address|) + 4 + Pad4(|argument| + 1) && |m| % 4 == 0
  {
    Aligned(address) + Aligned(TypeTag) + Aligned(argument + [Nul])
  }

  /** The address section of an encoded message: the address, then NULs up to the next multiple of four. */
  lemma AddressSection(address: string, argument: string)
    ensures var m, p := Encode(address, argument), Pad4(|address|);
      && m[..|address|] == address
      && (forall i :: |address| <= i < p ==> m[i] == Nul)
  {
    var a, m := Aligned(address), Encode(address, argument);
    assert m == a + (Aligned(TypeTag) + Aligned(argument + [Nul]));
    assert m[..|address|] == a[..|address|];
    forall i | |address| <= i < |a| ensures m[i] == Nul {
      assert m[i] == a[i];
    }
  }

  /** The type-tag section of an encoded message: ",s" and two NULs, right after the address section. */
  lemma TagSection(address: string, argument: string)
    ensures var m, p := Encode(address, argument), Pad4(|address|);
      m[p..p + 4] == [',', 's', Nul, Nul]
  {
    var a, t, x := Aligned(address), Aligned(TypeTag), Aligned(argument + [Nul]);
    assert t == [',', 's', Nul, Nul];
    assert (a + t + x)[|a|..|a| + 4] == t;
  }

  /** The argument section of an encoded message: the argument, then at least one NUL up to the end. */
  lemma ArgumentSection(address: string, argument: string)
    ensures var m, p := Encode(address, argument), Pad4(|address|);
      && m[p + 4..p + 4 + |argument|] == argument
      && (forall i :: p + 4 + |argument| <= i < |m| ==> m[i] == Nul)
  {
    var x, m := Aligned(argument + [Nul]), Encode(address, argument);
    var q := Pad4(|address|) + 4;
    assert m == (Aligned(address) + Aligned(TypeTag)) + x;
    assert m[q..q + |argument|] == x[..|argument|];
    forall i | q + |argument| <= i < |m| ensures m[i] == Nul {
      assert m[i] == x[i - q];
    }
  }

  /** One padding loop of createOSCMessage: append NULs while the length is not a multiple of four. */
  method PadSection(s: seq<char>) returns (padded: seq<char>)
    ensures padded == Aligned(s)
  {
    padded := s;
    while |padded| % 4 != 0
      invariant |s| <= |padded| <= Pad4(|s|)
      invariant padded == s + Nuls(|padded| - |s|)
      decreases Pad4(|s|) - |padded|
    {
      padded := padded + [Nul];
    }
    assert |padded| - |s| == PadCount(|s|);
  }

  /** createOSCMessage: the padded address, the padded type tag, then the padded NUL-terminated argument. */
  method CreateOscMessage(addressPattern: string, arguments: string) returns (message: seq<char>)
    ensures message == Encode(addressPattern, arguments)
  {
    message := [];
    var address := PadSection(addressPattern);
    message := message + address;
    var typeTag := PadSection(TypeTag);
    message := message + typeTag;
    var argumentStr := PadSection(arguments + [Nul]);
    message := message + argumentStr;
  }

  /** The position of the first NUL at or after i, if there is one. */
  function FindNul(m: seq<char>, i: nat): (r: Option<nat>)
    ensures r.Some? ==> i <= r.value < |m| && m[r.value] == Nul
    ensures r.Some? ==> forall k :: i <= k < r.value ==> m[k] != Nul
    ensures r.None? ==> forall k :: i <= k < |m| ==> m[k] != Nul
    decreases |m| - i
  {
    if i >= |m| then None
    else if m[i] == Nul then Some(i)
    else FindNul(m, i + 1)
  }

  /**
   * An OSC-string read at offset i: its characters up to the first NUL, and the offset
   * just past that NUL and its padding. None when there is no NUL or the padding runs
   * past the end.
   */
  function ReadString(m: seq<char>, i: nat): Option<(string, nat)>
  {
    match FindNul(m, i)
    case None => None
    case Some(j) => if Pad4(j + 1) <= |m| then Some((m[i..j], Pad4(j + 1))) else None
  }

  /** What an OSC 1.0 receiver reads from a message with one string argument. */
  datatype Message = Message(address: string, argument: string)

  function Decode(m: seq<char>): Option<Message>
  {
    match ReadString(m, 0)
    case None => None
    case Some((address, i)) =>
      match ReadString(m, i)
      case None => None
      case Some((tag, k)) =>
        if tag != TypeTag then None
        else
          match ReadString(m, k)
          case None => None
          case Some((argument, e)) => if e == |m| then Some(Message(address, argument)) else None
  }

  lemma FirstNulAt(m: seq<char>, i: nat, j: nat)
    requires i <= j < |m| && m[j] == Nul
    requires forall k :: i <= k < j ==> m[k] != Nul
    ensures FindNul(m, i) == Some(j)
  {
  }

  /**
   * The facts about a message that reading it back depends on: the address and NULs up
   * to p, the type tag ",s" and a NUL at p, the argument at p + 4 and a NUL after it.
   */
  predicate Layout(m: seq<char>, address: string, argument: string)
  {
    var n, x, p := |address|, |argument|, Pad4(|address|);
    && |m| == p + 4 + Pad4(x + 1) && Pad4(p + 4 + x + 1) == |m|
    && m[..n] == address && NulFree(address)
    && (forall k :: n <= k < p ==> m[k] == Nul)
    && m[p] == ',' && m[p + 1] == 's' && m[p + 2] == Nul
    && m[p + 4..p + 4 + x] == argument && NulFree(argument)
    && m[p + 4 + x] == Nul
  }

  lemma EncodeLayout(address: string, argument: string)
    requires NulFree(address) && NulFree(argument)
    ensures Layout(Encode(address, argument), address, argument)
  {
    AddressSection(address, argument);
    TagSection(address, argument);
    ArgumentSection(address, argument);
    Pad4Shift(|argument| + 1, (Pad4(|address|) + 4) / 4);
  }

  lemma ReadStringAt(m: seq<char>, i: nat, j: nat)
    requires i <= j < |m| && m[j] == Nul && Pad4(j + 1) <= |m|
    requires forall k :: i <= k < j ==> m[k] != Nul
    ensures ReadString(m, i) == Some((m[i..j], Pad4(j + 1)))
  {
    FirstNulAt(m, i, j);
  }

  /**
   * Reading a section s that sits at offset i, is NUL-free and is followed by a NUL at
   * i + |s|: the read ends at e, the first multiple of four past that NUL.
   */
  lemma ReadSection(m: seq<char>, i: nat, s: string, e: nat)
    requires i + |s| < |m| && m[i..i + |s|] == s && NulFree(s) && m[i + |s|] == Nul
    requires e == Pad4(i + |s| + 1) <= |m|
    ensures ReadString(m, i) == Some((s, e))
  {
    forall k | i <= k < i + |s| ensures m[k] != Nul {
      assert m[k] == m[i..i + |s|][k - i];
    }
    ReadStringAt(m, i, i + |s|);
  }

  /** Decode succeeds once its three reads succeed in turn and the last one ends the message. */
  lemma DecodeReads(m: seq<char>, address: string, i: nat, k: nat, argument: string)
    requires ReadString(m, 0) == Some((address, i))
    requires ReadString(m, i) == Some((TypeTag, k))
    requires ReadString(m, k) == Some((argument, |m|))
    ensures Decode(m) == Some(Message(address, argument))
  {
  }

  /** Where the reads of a message with an unaligned address of length n end. */
  lemma UnalignedOffsets(n: nat, p: nat)
    requires n % 4 != 0 && p == Pad4(n)
    ensures p % 4 == 0 && n < p && Pad4(n + 1) == p && Pad4(p + 2 + 1) == p + 4
  {
    assert (p + 3) % 4 == 3;
  }

  lemma DecodeLayoutUnaligned(m: seq<char>, address: string, argument: string)
    requires Layout(m, address, argument) && |address| % 4 != 0
    ensures Decode(m) == Some(Message(address, argument))
  {
    var n, x, p := |address|, |argument|, Pad4(|address|);
    UnalignedOffsets(n, p);
    assert m[0..n] == m[..n];
    ReadSection(m, 0, address, p);
    assert m[p..p + 2] == TypeTag;
    ReadSection(m, p, TypeTag, p + 4);
    ReadSection(m, p + 4, argument, |m|);
    DecodeReads(m, address, p, p + 4, argument);
  }

  /** Where the reads of a message with an aligned address of length n end. */
  lemma AlignedOffsets(n: nat)
    requires n % 4 == 0
    ensures Pad4(n) == n && Pad4(n + 2 + 1) == n + 4
  {
    assert (n + 3) % 4 == 3;
  }

  lemma DecodeLayoutAligned(m: seq<char>, address: string, argument: string)
    requires Layout(m, address, argument) && |address| % 4 == 0
    ensures Decode(m) == None
  {
    var n, x := |address|, |argument|;
    AlignedOffsets(n);
    var a := address + TypeTag;
    assert m[0..n + 2] == a by {
      assert m[..n] == address;
    }
    assert NulFree(a) by {
      forall k | 0 <= k < |a| ensures a[k] != Nul {
        if k < n { assert a[k] == address[k]; }
      }
    }
    ReadSection(m, 0, a, n + 4);
    ReadSection(m, n + 4, argument, |m|);
    assert FindNul(m, |m|) == None;
  }

  /**
   * An OSC 1.0 receiver reads back exactly the address and argument that were encoded
   * when neither holds a NUL and the address length is not a multiple of four; when it
   * is, the missing address terminator makes the receiver read the type tag into the
   * address, and the message does not decode at all.
   */
  lemma DecodeEncode(address: string, argument: string)
    requires NulFree(address) && NulFree(argument)
    ensures Decode(Encode(address, argument)) ==
            if |address| % 4 == 0 then None else Some(Message(address, argument))
  {
    EncodeLayout(address, argument);
    if |address| % 4 == 0 {
      DecodeLayoutAligned(Encode(address, argument), address, argument);
    } else {
      DecodeLayoutUnaligned(Encode(address, argument), address, argument);
    }
  }

  /** Two messages for the same address carry the same bytes only when their NUL-free arguments agree. */
  lemma EncodeArgumentInjective(address: string, x1: string, x2: string)
    requires NulFree(x1) && NulFree(x2)
    requires Encode(address, x1) == Encode(address, x2)
    ensures x1 == x2
  {
    if |x1| < |x2| {
      ShorterArgumentDiffers(address, x1, x2);
    } else if |x2| < |x1| {
      ShorterArgumentDiffers(address, x2, x1);
    } else {
      ArgumentSection(address, x1);
      ArgumentSection(address, x2);
    }
  }

  /** Where the shorter argument ends, its message has a NUL and the longer one's a character of its argument. */
  lemma ShorterArgumentDiffers(address: string, x1: string, x2: string)
    requires NulFree(x2) && |x1| < |x2|
    ensures Encode(address, x1) != Encode(address, x2)
  {
    var m1, m2, p := Encode(address, x1), Encode(address, x2), Pad4(|address|);
    ArgumentSection(address, x1);
    ArgumentSection(address, x2);
    assert m1[p + 4 + |x1|] == Nul;
    assert m2[p + 4 + |x1|] == x2[|x1|] != Nul;
  }

  lemma Pad4Shift(n: nat, q: nat)
    ensures Pad4(n + 4 * q) == Pad4(n) + 4 * q
  {
  }
}
