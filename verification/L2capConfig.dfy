/** Writing configuration options into a message (l2cap.c:470-623). */
module L2capConfig {
  import opened Bytes
  import opened ByteArrays
  import opened L2capOptions

  /** l2cap_config_write: appends options from `start` on until one does not fit; returns 0
      if all were stored and else the number of the first that was not. With no buffer it
      only measures; either way size and stopping point are the same function of the input. */
  method ConfigWrite(p: Params, start: nat, writing: bool, buffer: array<byte>, at: nat, limit: nat)
    returns (overflow: nat, used: nat)
    requires start <= MAX_WINDOW_SIZE
    requires writing ==> at + |BlockAt(p, start, limit)| <= buffer.Length
    modifies buffer
    ensures overflow == NextStart(p, start, limit)
    ensures used == |BlockAt(p, start, limit)| <= limit
    ensures buffer[..] == if writing then Patched(old(buffer[..]), at, BlockAt(p, start, limit)) else old(buffer[..])
  {
    overflow, used := WriteFrom(p, First(start), writing, buffer, at, 0, limit);
    BlockLength(p, First(start), limit);
  }

  /** The cascade of options from `id` on; an option that does not fit ends it. */
  method WriteFrom(p: Params, id: nat, writing: bool, buffer: array<byte>, at: nat, used: nat, limit: nat)
    returns (overflow: nat, size: nat)
    requires 1 <= id <= END_OF_OPTIONS && used <= limit
    requires writing ==> at + |Encode(p, id, StopFrom(p, id, used, limit))| <= buffer.Length
    modifies buffer
    ensures var stop := StopFrom(p, id, used, limit);
      overflow == (if stop == END_OF_OPTIONS then 0 else stop) && size == |Encode(p, id, stop)|
    ensures buffer[..] ==
      if writing then Patched(old(buffer[..]), at, Encode(p, id, StopFrom(p, id, used, limit))) else old(buffer[..])
    decreases END_OF_OPTIONS - id
  {
    hide Encode, StopFrom, Patched, OptionLen, OptionBytes;
    EncodeEmpty(p, id);
    WriteStep(p, id, used, limit);
    ghost var was, stop := buffer[..], StopFrom(p, id, used, limit);
    if writing {
      PatchNothing(was, at);
    }
    if id == END_OF_OPTIONS {
      return 0, 0;
    }
    var fits, first := WriteOption(p, id, writing, buffer, at, limit - used);
    if !fits {
      return id, 0;
    }
    overflow, size := WriteFrom(p, id + 1, writing, buffer, at + first, used + first, limit);
    size := first + size;
    if writing {
      PatchTwice(was, at, OptionBytes(p, id), Encode(p, id + 1, stop));
    }
  }

  function BlockAt(p: Params, start: nat, limit: nat): seq<byte>
    requires start <= MAX_WINDOW_SIZE
  {
    Encode(p, First(start), Stop(p, First(start), limit))
  }

  /** A start command of 0 means all options, like 1. */
  function First(start: nat): nat {
    if start == 0 then 1 else start
  }

  function NextStart(p: Params, start: nat, limit: nat): (next: nat)
    requires start <= MAX_WINDOW_SIZE
    ensures next <= MAX_WINDOW_SIZE
  {
    var stop := Stop(p, First(start), limit);
    if stop == END_OF_OPTIONS then 0 else stop
  }

  /** A message that starts where n turns have led is the one of turn n. */
  lemma TurnOf(p: Params, start: nat, limit: nat, n: nat)
    requires start <= MAX_WINDOW_SIZE && First(start) == AfterTurns(p, limit, n)
    ensures BlockAt(p, start, limit) == BlockOfTurn(p, limit, n)
    ensures var after := AfterTurns(p, limit, n + 1);
      NextStart(p, start, limit) == if after == END_OF_OPTIONS then 0 else after
  {
    hide Encode, StopFrom;
  }

  /** One option of the cascade: an absent one fits and takes no room. */
  method WriteOption(p: Params, id: nat, writing: bool, buffer: array<byte>, at: nat, room: nat) returns (fits: bool,
                     size: nat)
    requires IsOption(id) && (writing && OptionLen(p, id) <= room ==> at + OptionLen(p, id) <= buffer.Length)
    modifies buffer
    ensures size == OptionLen(p, id) && (fits <==> size <= room)
    ensures buffer[..] == if writing && fits then Patched(old(buffer[..]), at, OptionBytes(p, id)) else old(buffer[..])
  {
    fits, size := true, 0;
    if Present(p, id) {
      size := 2 + PayloadLen(id);
      if size > room {
        return false, size;
      }
      if writing {
        PutBytes(buffer, at, [id, PayloadLen(id)] + Payload(p, id));
      }
    } else if writing {
      PatchNothing(buffer[..], at);
    }
  }

  /** One option: either the block stops there, or it begins with it. */
  lemma {:induction false} WriteStep(p: Params, id: nat, used: nat, limit: nat)
    requires 1 <= id <= END_OF_OPTIONS && used <= limit
    ensures var stop := StopFrom(p, id, used, limit);
      if id == END_OF_OPTIONS || used + OptionLen(p, id) > limit then stop == id
      else
        && id < stop && StopFrom(p, id + 1, used + OptionLen(p, id), limit) == stop
        && Encode(p, id, stop) == OptionBytes(p, id) + Encode(p, id + 1, stop)
    ensures id < END_OF_OPTIONS ==> |OptionBytes(p, id)| == OptionLen(p, id)
  {
    hide Encode, StopFrom, OptionBytes, OptionLen;
    StopStep(p, id, used, limit);
    if id < END_OF_OPTIONS {
      OptionLength(p, id);
      if id < StopFrom(p, id, used, limit) {
        EncodeFirst(p, id, StopFrom(p, id, used, limit));
      }
    }
  }

  lemma {:induction false} StopStep(p: Params, id: nat, used: nat, limit: nat)
    requires 1 <= id <= END_OF_OPTIONS && used <= limit
    ensures var stop := StopFrom(p, id, used, limit);
      if id == END_OF_OPTIONS || used + OptionLen(p, id) > limit then stop == id
      else id < stop && StopFrom(p, id + 1, used + OptionLen(p, id), limit) == stop
  {
    hide OptionLen;
  }

  lemma OptionLength(p: Params, id: nat)
    requires IsOption(id)
    ensures |OptionBytes(p, id)| == OptionLen(p, id)
  {
    hide Payload, PayloadLen, Present;
  }

  lemma {:induction false} BlockLength(p: Params, first: nat, limit: nat)
    requires 1 <= first <= END_OF_OPTIONS
    ensures |Encode(p, first, Stop(p, first, limit))| <= limit
  {
    BlockIsGreedy(p, first, 0, limit);
    LengthOfEncoding(p, first, Stop(p, first, limit));
  }
}
