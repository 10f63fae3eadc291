/** Reading configuration options back (l2cap.c:341-468). */
module L2capParse {
  import opened Prelude
  import opened Bytes
  import opened L2capOptions

  /** The reader of an incoming message, as a flat stream of bytes. */
  class ByteStream {
    const data: seq<byte>
    var pos: nat

    predicate Valid()
      reads this
    {
      pos <= |data|
    }

    function Rest(): seq<byte>
      requires Valid()
      reads this
    {
      data[pos..]
    }

    constructor (data: seq<byte>)
      ensures Valid() && Rest() == data
    {
      this.data, pos := data, 0;
    }

    /** Reads up to n bytes, fewer only at the end of the stream. */
    method Read(n: nat) returns (bytes: seq<byte>)
      requires Valid()
      modifies this
      ensures Valid() && bytes == Prefix(old(Rest()), n) && Rest() == Suffix(old(Rest()), n)
    {
      var len := if n <= |data| - pos then n else |data| - pos;
      bytes := data[pos..pos + len];
      pos := pos + len;
    }
  }

  function Prefix(s: seq<byte>, n: nat): (r: seq<byte>)
    ensures |r| <= n
  {
    if n <= |s| then s[..n] else s
  }

  function Suffix(s: seq<byte>, n: nat): seq<byte> {
    if n <= |s| then s[n..] else []
  }

  datatype Code = Parsed | Corrupted | UnknownType

  datatype Outcome = Outcome(code: Code, params: Params, unknownSize: nat)

  /** l2cap_config_params_clear: the mask and the pointers; plain values stay behind. */
  function Clear(p: Params): Params {
    p.(mask := {}, qos := None, retxFlow := None, extFlow := None)
  }

  function Word16(s: seq<byte>, at: nat): u16
    requires at + 2 <= |s|
  {
    var a: int, b: int := s[at], s[at + 1];
    a + 256 * b
  }

  function Word32(s: seq<byte>, at: nat): u32
    requires at + 4 <= |s|
  {
    var a: int, b: int, c: int, d: int := s[at], s[at + 1], s[at + 2], s[at + 3];
    a + 256 * b + 0x1_0000 * c + 0x100_0000 * d
  }

  /** The payload of option `id` stored in the record. */
  function Store(p: Params, id: nat, s: seq<byte>): Params
    requires IsOption(id) && |s| == PayloadLen(id)
  {
    var q := p.(mask := p.mask + {id});
    match id
    case 1 => q.(mtu := Word16(s, 0))
    case 2 => q.(flushTimeout := Word16(s, 0))
    case 3 => q.(qos := Some(Qos(s[0], s[1], Word32(s, 2), Word32(s, 6), Word32(s, 10), Word32(s, 14), Word32(s, 18))))
    case 4 => q.(retxFlow := Some(RetxFlow(s[0], s[1], s[2], Word16(s, 3), Word16(s, 5), Word16(s, 7))))
    case 5 => q.(frameCheckSeq := s[0])
    case 6 => q.(extFlow := Some(ExtFlow(s[0], s[1], Word16(s, 2), Word32(s, 4), Word32(s, 8), Word32(s, 12))))
    case 7 => q.(maxWindowSize := Word16(s, 0))
  }

  /** A word in memory of which `data` overwrites the first bytes. */
  function Overwritten(was: u16, data: seq<byte>): u16
    requires |data| <= 2
  {
    if |data| == 2 then Word16(data, 0)
    else if |data| == 1 then var low: int := data[0]; low + was / 256 * 256
    else was
  }

  /** A plain option is read into its field straight away, as far as the stream goes. */
  function SetPlain(p: Params, id: nat, data: seq<byte>): Params
    requires IsOption(id) && !IsStructured(id) && |data| <= PayloadLen(id)
  {
    if id == MTU then p.(mtu := Overwritten(p.mtu, data))
    else if id == FLUSH_TIMEOUT then p.(flushTimeout := Overwritten(p.flushTimeout, data))
    else if id == MAX_WINDOW_SIZE then p.(maxWindowSize := Overwritten(p.maxWindowSize, data))
    else if data == [] then p
    else p.(frameCheckSeq := data[0])
  }

  /** Whether a known option was in order, and the record after it. */
  datatype Known = Known(ok: bool, params: Params)

  /** One known option. The type is looked up without its hint bit, but the structured ones
      are stored only if the raw type has none: with the bit, just the mask records them. A
      plain one is stored even if its size is wrong or the stream ends. */
  function ParseKnown(p: Params, typ: byte, size: byte, body: seq<byte>): Known
    requires IsOption(typ % 128)
  {
    var id := typ % 128;
    var n, marked := PayloadLen(id), p.(mask := p.mask + {id});
    var ok := size == n && |body| >= n;
    if !IsStructured(id) then Known(ok, SetPlain(marked, id, Prefix(body, n)))
    else if ok && typ < HINT then Known(true, Store(p, id, body[..n]))
    else Known(ok, marked)
  }

  lemma PlainIsStored(p: Params, id: nat, data: seq<byte>)
    requires IsOption(id) && !IsStructured(id) && |data| == PayloadLen(id)
    ensures SetPlain(p.(mask := p.mask + {id}), id, data) == Store(p, id, data)
  {
  }

  /** A known option of the right size that is there as a whole. */
  lemma KnownInOrder(p: Params, typ: byte, body: seq<byte>)
    requires IsOption(typ % 128) && |body| >= PayloadLen(typ % 128)
    ensures
      var id := typ % 128;
      ParseKnown(p, typ, PayloadLen(id), body) ==
      Known(true, if IsStructured(id) && typ >= HINT then p.(mask := p.mask + {id})
                  else Store(p, id, body[..PayloadLen(id)]))
  {
    hide Store, SetPlain;
    if !IsStructured(typ % 128) {
      PlainIsStored(p, typ % 128, body[..PayloadLen(typ % 128)]);
    }
  }

  /** What l2cap_config_parse makes of the stream `s` when `left` bytes of the command are
      not read yet. `counting` says whether the caller asked for the size of the unknown
      options; `unknown` is the count so far, and `sawUnknown` turns later errors into type
      errors. */
  function ParseFrom(s: seq<byte>, left: int, p: Params, unknown: nat, sawUnknown: bool, counting: bool): Outcome
    decreases left
  {
    var failed := Outcome(if sawUnknown then UnknownType else Corrupted, Clear(p), unknown);
    if left <= 0 then if counting && unknown > 0 then failed else Outcome(Parsed, p, unknown)
    else if |s| < 2 || 2 + s[1] > left then failed
    else
      var typ, size, body := s[0], s[1], s[2..];
      if IsOption(typ % 128) then
        var known := ParseKnown(p, typ, size, body);
        if !known.ok then failed.(params := Clear(known.params))
        else ParseFrom(Suffix(body, size), left - 2 - size, known.params, unknown, sawUnknown, counting)
      else
        var critical := typ < HINT;
        ParseFrom(Suffix(body, size), left - 2 - size, p,
                  if critical && counting then unknown + 2 + size else unknown, sawUnknown || critical, counting)
  }

  function Parse(s: seq<byte>, cmdSize: nat, p: Params, counting: bool): Outcome {
    ParseFrom(s, cmdSize, p, 0, false, counting)
  }

  /** How parsing goes on with the first option of `s`, in terms of what the loop reads. */
  lemma OneOption(s: seq<byte>, left: int, p: Params, unknown: nat, sawUnknown: bool, counting: bool)
    requires left > 0
    ensures var header, body := Prefix(s, 2), Suffix(s, 2);
      var failed := Outcome(if sawUnknown then UnknownType else Corrupted, Clear(p), unknown);
      var here := ParseFrom(s, left, p, unknown, sawUnknown, counting);
      if |header| != 2 || 2 + header[1] > left then here == failed
      else if IsOption(header[0] % 128) then
        var known := ParseKnown(p, header[0], header[1], body);
        if !known.ok then here == failed.(params := Clear(known.params))
        else here == ParseFrom(Suffix(body, header[1]), left - 2 - header[1], known.params, unknown, sawUnknown,
            counting)
      else
        here == ParseFrom(Suffix(body, header[1]), left - 2 - header[1], p,
                          if header[0] < HINT && counting then unknown + 2 + header[1] else unknown,
                          sawUnknown || header[0] < HINT, counting)
  {
    hide ParseKnown, Clear;
  }

  lemma AllRead(s: seq<byte>, left: int, p: Params, unknown: nat, sawUnknown: bool, counting: bool)
    requires left <= 0
    ensures ParseFrom(s, left, p, unknown, sawUnknown, counting) ==
      if counting && unknown > 0 then Outcome(if sawUnknown then UnknownType else Corrupted, Clear(p), unknown)
      else Outcome(Parsed, p, unknown)
  {
  }

  /** The parsing loop. Clearing on error drops the mask and the pointers; plain values stay as far as
      they were stored before the error was noticed. */
  method ConfigParse(reader: ByteStream, p: Params, cmdSize: nat, counting: bool) returns (r: Outcome)
    requires reader.Valid()
    modifies reader
    ensures reader.Valid() && r == Parse(old(reader.Rest()), cmdSize, p, counting)
  {
    hide Clear, ParseKnown, ParseFrom, Suffix, Prefix;
    var read: nat, params, unknown: nat, errorReturn := 0, p, 0, Corrupted;
    ghost var all := reader.Rest();
    while read < cmdSize
      invariant reader.Valid() && (errorReturn == Corrupted || errorReturn == UnknownType)
      invariant Parse(all, cmdSize, p, counting) ==
        ParseFrom(reader.Rest(), cmdSize - read, params, unknown, errorReturn == UnknownType, counting)
    {
      OneOption(reader.Rest(), cmdSize - read, params, unknown, errorReturn == UnknownType, counting);
      var header := reader.Read(2);
      if |header| != 2 {
        return Outcome(errorReturn, Clear(params), unknown);
      }
      read := read + 2;
      var typ: nat, size: nat := header[0], header[1];
      if read + size > cmdSize {
        return Outcome(errorReturn, Clear(params), unknown);
      }
      if IsOption(typ % 128) {
        var ok;
        ok, params := ReadKnown(reader, params, typ, size);
        if !ok {
          return Outcome(errorReturn, Clear(params), unknown);
        }
      } else {
        if typ < HINT {
          errorReturn := UnknownType;
          if counting {
            unknown := unknown + 2 + size;
          }
        }
        var _ := reader.Read(size);
      }
      read := read + size;
    }
    AllRead(reader.Rest(), cmdSize - read, params, unknown, errorReturn == UnknownType, counting);
    if counting && unknown > 0 {
      return Outcome(errorReturn, Clear(params), unknown);
    }
    r := Outcome(Parsed, params, unknown);
  }

  /** The value part of a known option (l2cap.c:366-462). */
  method ReadKnown(reader: ByteStream, params: Params, typ: byte, size: byte) returns (ok: bool, next: Params)
    requires reader.Valid() && IsOption(typ % 128)
    modifies reader
    ensures reader.Valid() && Known(ok, next) == ParseKnown(params, typ, size, old(reader.Rest()))
    ensures ok ==> reader.Rest() == Suffix(old(reader.Rest()), size)
  {
    hide Store, SetPlain;
    var id: nat := typ % 128;
    next := params.(mask := params.mask + {id});
    var data := reader.Read(PayloadLen(id));
    if !IsStructured(id) {
      next := SetPlain(next, id, data);
    }
    ok := |data| == PayloadLen(id) && size == PayloadLen(id);
    if ok && IsStructured(id) && typ < HINT {
      next := Store(params, id, data);
    }
  }
}
