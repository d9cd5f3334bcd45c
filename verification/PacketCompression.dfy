/** The compressor as protocol.c uses it: a datagram is sent compressed if that makes it shorter, and the
    receiver gets the bytes that were sent. */
module PacketCompression {
  import opened Words
  import opened Ppm
  import opened RoundTrip
  import opened SymbolArena
  import opened RangeCoder
  import opened ModelLockstep

  datatype Datagram = Raw(bytes: seq<byte>) | Compressed(bytes: seq<byte>)

  datatype Received = Packet(bytes: seq<byte>) | Dropped

  /** Compresses the commands and data of a datagram into scratch, if they become shorter. */
  method Pack(arena: Arena, buffers: seq<seq<byte>>, scratch: array<byte>) returns (d: Datagram, ghost history: seq<Snapshot>)
    requires arena.symbols.Length == SYMBOLS && |Flatten(buffers)| <= scratch.Length
    requires forall i :: 0 < i < |buffers| ==> buffers[i] != []
    modifies arena, arena.symbols, scratch
    ensures var text := Flatten(buffers);
            d == (if 0 < |Encode(text)| < |text| then Compressed(Encode(text)) else Raw(text))
            && (d.Compressed? ==> Recorded(history, text))
  {
    hide *;
    var text := Gather(buffers);
    var compressedSize: nat;
    compressedSize, history := Compress(arena, buffers, |text|, scratch, |text|);
    if buffers == [] { FlattenNone(); }
    if compressedSize > 0 && compressedSize < |text| {
      d := Compressed(scratch[..compressedSize]);
    } else {
      d := Raw(text);
    }
  }

  method Gather(buffers: seq<seq<byte>>) returns (text: seq<byte>)
    ensures text == Flatten(buffers)
  {
    text := [];
    var i := |buffers|;
    assert buffers[i..] == [];
    while i > 0
      invariant 0 <= i <= |buffers| && text == Flatten(buffers[i..])
    {
      i := i - 1;
      assert buffers[i..][1..] == buffers[i + 1..];
      text := buffers[i] + text;
    }
    assert buffers[0..] == buffers;
  }

  lemma FlattenNone()
    ensures Flatten([]) == []
  {
  }

  /** Restores a datagram in scratch; one that cannot be read, or is empty, is dropped. */
  method Unpack(arena: Arena, d: Datagram, scratch: array<byte>, ghost sent: seq<byte>) returns (r: Received, ghost history: seq<Snapshot>)
    requires arena.symbols.Length == SYMBOLS
    requires d.Compressed? ==> Decode(d.bytes, scratch.Length) != Undefined
    modifies arena, arena.symbols, scratch
    ensures d.Raw? ==> r == Packet(d.bytes)
    ensures d.Compressed? ==>
              r == match Decode(d.bytes, scratch.Length)
                   case Text(text) => if text == [] then Dropped else Packet(text)
                   case _ => Dropped
    ensures d == Compressed(Encode(sent)) && d.bytes != [] && |sent| <= scratch.Length ==> Recorded(history, sent)
  {
    hide *;
    history := [];
    if d.Raw? {
      return Packet(d.bytes), [];
    }
    var input := new byte[|d.bytes|](i requires 0 <= i < |d.bytes| => d.bytes[i]);
    assert input[..] == d.bytes;
    var originalSize: nat;
    originalSize, history := Decompress(arena, input, scratch, scratch.Length, sent);
    if originalSize <= 0 || originalSize > scratch.Length {
      return Dropped, history;
    }
    r := Packet(scratch[..originalSize]);
  }

  /** What one side packs, the other side, with an arena in any state, unpacks. If it is sent compressed,
      both arenas are alike after every byte and emptied at the same bytes. */
  method Transmit(sender: Arena, receiver: Arena, buffers: seq<seq<byte>>, scratch: array<byte>, room: array<byte>)
    returns (r: Received, ghost coded: seq<Snapshot>, ghost decoded: seq<Snapshot>)
    requires sender.symbols.Length == SYMBOLS && receiver.symbols.Length == SYMBOLS
    requires sender != receiver && sender.symbols != receiver.symbols
    requires |Flatten(buffers)| <= scratch.Length && |Flatten(buffers)| <= room.Length
    requires forall i :: 0 < i < |buffers| ==> buffers[i] != []
    modifies sender, sender.symbols, receiver, receiver.symbols, scratch, room
    ensures r == Packet(Flatten(buffers))
    ensures var text := Flatten(buffers);
            0 < |Encode(text)| < |text| ==>
              && |coded| == |decoded| == |text| + 1
              && forall i :: 0 <= i <= |text| ==> Alike(coded[i], decoded[i]) && (coded[i].keys == [[]] <==> decoded[i].keys == [[]])
  {
    hide *;
    DecodeEncode(Flatten(buffers), room.Length);
    var d;
    d, coded := Pack(sender, buffers, scratch);
    r, decoded := Unpack(receiver, d, room, Flatten(buffers));
    if d.Compressed? { Lockstep(coded, decoded, Flatten(buffers)); }
  }
}
