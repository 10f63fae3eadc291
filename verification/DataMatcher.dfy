/** Byte patterns that tell which event answers which command: rules packed into 16 bytes
    (data_matcher.h:24-101), and the patterns the library builds (hci_dev.c:456-465;
    hci.c:46-53, 269-273, 415-424, 862-869, 1058-1067, 1115-1124). */
module DataMatcher {
  import opened Bytes
  import opened ByteArrays

  const MAX_LENGTH: nat := 16

  datatype Rule = Rule(offset: byte, data: seq<byte>)

  function PackOne(r: Rule): seq<byte>
    requires |r.data| < 0x100
  {
    [r.offset, |r.data| as byte] + r.data
  }

  predicate Packable(rules: seq<Rule>) {
    forall i :: 0 <= i < |rules| ==> |rules[i].data| < 0x100
  }

  function Pack(rules: seq<Rule>): seq<byte>
    requires Packable(rules)
  {
    if rules == [] then [] else PackOne(rules[0]) + Pack(rules[1..])
  }

  /** The event has the bytes of the rule at its place. */
  predicate Obeys(data: seq<byte>, r: Rule) {
    r.offset + |r.data| <= |data| && data[r.offset..r.offset + |r.data|] == r.data
  }

  predicate Accepts(rules: seq<Rule>, data: seq<byte>) {
    forall i :: 0 <= i < |rules| ==> Obeys(data, rules[i])
  }

  lemma {:induction false} PackSnoc(rules: seq<Rule>, r: Rule)
    requires Packable(rules) && |r.data| < 0x100
    ensures Packable(rules + [r]) && Pack(rules + [r]) == Pack(rules) + PackOne(r)
  {
    hide PackOne;
    if rules == [] {
      assert [r][1..] == [];
      assert rules + [r] == [r];
      assert Pack([r]) == PackOne(r) + [];
    } else {
      assert (rules + [r])[1..] == rules[1..] + [r];
      PackSnoc(rules[1..], r);
      assert PackOne(rules[0]) + (Pack(rules[1..]) + PackOne(r)) == PackOne(rules[0]) + Pack(rules[1..]) + PackOne(r);
    }
  }

  lemma {:induction false} PackSplit(rules: seq<Rule>, i: nat)
    requires Packable(rules) && i < |rules|
    ensures Packable(rules[..i]) && Packable(rules[..i + 1])
    ensures Pack(rules[..i + 1]) == Pack(rules[..i]) + PackOne(rules[i])
    ensures |Pack(rules[..i + 1])| <= |Pack(rules)|
    ensures Pack(rules[..i + 1]) <= Pack(rules)
    decreases |rules| - i
  {
    hide PackOne;
    assert rules[..i + 1] == rules[..i] + [rules[i]];
    PackSnoc(rules[..i], rules[i]);
    if i + 1 < |rules| {
      PackSplit(rules, i + 1);
    } else {
      assert rules[..i + 1] == rules;
    }
  }

  /** Every rule takes two bytes at least. */
  lemma {:induction false} PackLength(rules: seq<Rule>)
    requires Packable(rules)
    ensures |Pack(rules)| >= 2 * |rules|
  {
    if rules == [] {
    } else {
      PackLength(rules[1..]);
    }
  }

  class Matcher {
    var numRules: byte
    const bytes: array<byte>
    ghost var rules: seq<Rule>

    ghost predicate Valid()
      reads this, bytes
    {
      && bytes.Length == MAX_LENGTH && numRules == |rules|
      && Packable(rules) && Pack(rules) <= bytes[..]
    }

    constructor ()
      ensures Valid() && rules == [] && fresh(bytes)
    {
      numRules, rules := 0, [];
      bytes := new byte[MAX_LENGTH];
    }

    method Init()
      requires Valid()
      modifies this
      ensures Valid() && rules == []
    {
      numRules, rules := 0, [];
    }

    /** Where rule i stands in the packed bytes. */
    lemma RuleAt(i: nat)
      requires Valid() && i < |rules|
      ensures Packable(rules[..i]) && Packable(rules[..i + 1])
      ensures
        var at := |Pack(rules[..i])|;
        && |Pack(rules[..i + 1])| == at + 2 + |rules[i].data| <= MAX_LENGTH
        && bytes[at] == rules[i].offset && bytes[at + 1] == |rules[i].data|
        && bytes[at + 2..at + 2 + |rules[i].data|] == rules[i].data
    {
      PackSplit(rules, i);
      var before, one := Pack(rules[..i]), PackOne(rules[i]);
      hide Pack;
      var at, n := |before|, |rules[i].data|;
      assert before + one <= bytes[..];
      assert bytes[..][at..at + 2 + n] == one;
      assert bytes[at] == one[0] && bytes[at + 1] == one[1];
      assert bytes[at + 2..at + 2 + n] == bytes[..][at..at + 2 + n][2..];
    }

    method End() returns (at: nat)
      requires Valid()
      ensures at == |Pack(rules)| <= MAX_LENGTH
    {
      hide Pack;
      EmptyPack();
      at := 0;
      for i := 0 to numRules
        invariant Packable(rules[..i]) && at == |Pack(rules[..i])|
      {
        RuleAt(i);
        at := at + 2 + bytes[at + 1];
      }
      assert rules[..numRules] == rules;
    }

    lemma EmptyPack()
      ensures Pack([]) == [] && rules[..0] == []
    {
    }

    /** Adds a rule behind the others, if it fits. */
    method AddRule(data: seq<byte>, offset: byte) returns (ok: bool)
      requires Valid() && |data| < 0x100
      modifies this, bytes
      ensures Valid()
      ensures ok <==> old(|Pack(rules)|) + 2 + |data| <= MAX_LENGTH
      ensures rules == if ok then old(rules) + [Rule(offset, data)] else old(rules)
    {
      var at := End();
      if at + 2 + |data| > MAX_LENGTH {
        return false;
      }
      var r := Rule(offset, data);
      PackSnoc(rules, r);
      PackLength(rules + [r]);
      PutBytes(bytes, at, PackOne(r));
      rules := rules + [r];
      numRules := numRules + 1;
      return true;
    }

    method Compare(data: seq<byte>) returns (r: bool)
      requires Valid()
      ensures r <==> Accepts(rules, data)
    {
      hide Pack;
      EmptyPack();
      var at := 0;
      for i := 0 to numRules
        invariant Packable(rules[..i]) && at == |Pack(rules[..i])|
        invariant forall j :: 0 <= j < i ==> Obeys(data, rules[j])
      {
        RuleAt(i);
        var offset, length: int := bytes[at], bytes[at + 1];
        if offset + length > |data| {
          return false;
        }
        if bytes[at + 2..at + 2 + length] != data[offset..offset + length] {
          return false;
        }
        at := at + 2 + length;
      }
      return true;
    }

    method IsSame(other: Matcher) returns (r: bool)
      requires Valid() && other.Valid()
      ensures r <==> rules == other.rules
    {
      hide Pack;
      if numRules != other.numRules {
        return false;
      }
      EmptyPack();
      other.EmptyPack();
      var at := 0;
      for i := 0 to numRules
        invariant Packable(rules[..i]) && at == |Pack(rules[..i])|
        invariant rules[..i] == other.rules[..i]
      {
        RuleAt(i);
        other.RuleAt(i);
        if bytes[at] != other.bytes[at] || bytes[at + 1] != other.bytes[at + 1] {
          return false;
        }
        var length: int := bytes[at + 1];
        if bytes[at + 2..at + 2 + length] != other.bytes[at + 2..at + 2 + length] {
          return false;
        }
        at := at + 2 + length;
        assert rules[i] == other.rules[i];
        assert rules[..i + 1] == rules[..i] + [rules[i]];
        assert other.rules[..i + 1] == other.rules[..i] + [other.rules[i]];
      }
      assert rules[..numRules] == rules && other.rules[..numRules] == other.rules;
      return true;
    }
  }

  // ----- the patterns the library builds -----

  const INQUIRY_COMPLETE: byte := 0x01
  const CONNECTION_COMPLETE: byte := 0x03
  const AUTH_COMPLETE: byte := 0x06
  const REMOTE_NAME_COMPLETE: byte := 0x07
  const REMOTE_FEATURES_COMPLETE: byte := 0x0B
  const REMOTE_VERSION_COMPLETE: byte := 0x0C
  const QOS_SETUP_COMPLETE: byte := 0x0D
  const COMMAND_COMPLETE: byte := 0x0E
  const COMMAND_STATUS: byte := 0x0F
  const MODE_CHANGE: byte := 0x14
  const CLOCK_OFFSET_COMPLETE: byte := 0x1C

  /** What a client waits for: an event, and the opcode, connection handle or address it is about. */
  datatype Request = Request(event: byte, key: seq<byte>)

  function KeyOffset(event: byte): byte {
    if event == COMMAND_STATUS then 4 else if event == CONNECTION_COMPLETE then 5 else 3
  }

  function KeyLength(event: byte): nat {
    if event == INQUIRY_COMPLETE then 0
    else if event == CONNECTION_COMPLETE || event == REMOTE_NAME_COMPLETE then 6
    else 2
  }

  predicate IsRequest(r: Request) {
    && r.event in {INQUIRY_COMPLETE, CONNECTION_COMPLETE, AUTH_COMPLETE, REMOTE_NAME_COMPLETE, REMOTE_FEATURES_COMPLETE,
                   REMOTE_VERSION_COMPLETE, QOS_SETUP_COMPLETE, COMMAND_COMPLETE, COMMAND_STATUS, MODE_CHANGE,
                   CLOCK_OFFSET_COMPLETE}
    && |r.key| == KeyLength(r.event)
  }

  function Pattern(r: Request): (rules: seq<Rule>)
    ensures rules != []
  {
    if r.event == INQUIRY_COMPLETE then [Rule(0, [r.event])]
    else [Rule(0, [r.event]), Rule(KeyOffset(r.event), r.key)]
  }

  /** Two patterns of the library are the same, or no event is accepted by both. */
  lemma SameOrApart(a: Request, b: Request)
    requires IsRequest(a) && IsRequest(b)
    ensures Pattern(a) == Pattern(b) <==> a == b
    ensures a != b ==> forall data :: !(Accepts(Pattern(a), data) && Accepts(Pattern(b), data))
  {
    forall data | Accepts(Pattern(a), data) && Accepts(Pattern(b), data)
      ensures a == b
    {
      assert Obeys(data, Pattern(a)[0]) && Obeys(data, Pattern(b)[0]);
      assert [a.event] == data[0..1] == [b.event];
      assert [a.event][0] == [b.event][0];
      if a.event != INQUIRY_COMPLETE {
        assert Obeys(data, Pattern(a)[1]) && Obeys(data, Pattern(b)[1]);
      }
    }
    assert Pattern(a)[0] == Rule(0, [a.event]) && Pattern(b)[0] == Rule(0, [b.event]);
    if Pattern(a) == Pattern(b) {
      assert [a.event][0] == [b.event][0];
      if a.event != INQUIRY_COMPLETE {
        assert Pattern(a)[1] == Pattern(b)[1];
      }
    }
  }

  // ----- the events the controller sends (section 7.7 of Vol 4 Part E) -----

  /** Opcodes and handles are two bytes long, addresses six. Six kinds of event tell the handle they are about right
      after their status. */
  datatype Event =
    | InquiryComplete(status: byte)
    | ConnectionComplete(status: byte, handle: seq<byte>, address: seq<byte>, linkType: byte, encryption: byte)
    | RemoteNameComplete(status: byte, address: seq<byte>, name: seq<byte>)
    | HandleEvent(code: byte, status: byte, handle: seq<byte>, more: seq<byte>)
    | CommandComplete(packets: byte, opcode: seq<byte>, result: seq<byte>)
    | CommandStatus(status: byte, packets: byte, opcode: seq<byte>)

  predicate IsEvent(e: Event) {
    match e
    case InquiryComplete(_) => true
    case ConnectionComplete(_, handle, address, _, _) => |handle| == 2 && |address| == 6
    case RemoteNameComplete(_, address, name) => |address| == 6 && |name| <= 248
    case HandleEvent(code, _, handle, more) =>
      code in {0x06, 0x0b, 0x0c, 0x0d, 0x14, 0x1c} && |handle| == 2 && |more| < 0x80
    case CommandComplete(_, opcode, result) => |opcode| == 2 && |result| <= 252
    case CommandStatus(_, _, opcode) => |opcode| == 2
  }

  /** The event code, the length of what follows, and the parameters. */
  function EventBytes(e: Event): seq<byte>
    requires IsEvent(e)
  {
    match e
    case InquiryComplete(status) => [0x01, 1, status]
    case ConnectionComplete(status, handle, address, linkType, encryption) =>
      [0x03, 11, status] + handle + address + [linkType, encryption]
    case RemoteNameComplete(status, address, name) => [0x07, 7 + |name|, status] + address + name
    case HandleEvent(code, status, handle, more) => [code, 3 + |more|, status] + handle + more
    case CommandComplete(packets, opcode, result) => [0x0e, 3 + |result|, packets] + opcode + result
    case CommandStatus(status, packets, opcode) => [0x0f, 4, status, packets] + opcode
  }

  /** What a client waits for that this event answers. */
  function AnswersTo(e: Event): Request {
    match e
    case InquiryComplete(_) => Request(0x01, [])
    case ConnectionComplete(_, _, address, _, _) => Request(0x03, address)
    case RemoteNameComplete(_, address, _) => Request(0x07, address)
    case HandleEvent(code, _, handle, _) => Request(code, handle)
    case CommandComplete(_, opcode, _) => Request(0x0e, opcode)
    case CommandStatus(_, _, opcode) => Request(0x0f, opcode)
  }

  /** Of all patterns of the library, an event is accepted by exactly the one for its code and its opcode, handle or
      address. */
  lemma AcceptedByItsOwn(e: Event, r: Request)
    requires IsEvent(e) && IsRequest(r)
    ensures IsRequest(AnswersTo(e))
    ensures Accepts(Pattern(r), EventBytes(e)) <==> r == AnswersTo(e)
  {
    KeyIsThere(e);
    hide EventBytes, Accepts;
    if r != AnswersTo(e) {
      SameOrApart(r, AnswersTo(e));
    }
  }

  lemma KeyIsThere(e: Event)
    requires IsEvent(e)
    ensures IsRequest(AnswersTo(e)) && Accepts(Pattern(AnswersTo(e)), EventBytes(e))
  {
    var s, r := EventBytes(e), AnswersTo(e);
    assert s[0..1] == [r.event];
    match e
    case InquiryComplete(_) =>
    case ConnectionComplete(_, _, address, _, _) => assert s[5..11] == address;
    case RemoteNameComplete(_, address, _) => assert s[3..9] == address;
    case HandleEvent(_, _, handle, _) => assert s[3..5] == handle;
    case CommandComplete(_, opcode, _) => assert s[3..5] == opcode;
    case CommandStatus(_, _, opcode) => assert s[4..6] == opcode;
  }

  /** Every pattern of the library fits the 16 bytes, so none of its rules is left out. */
  method Build(m: Matcher, r: Request)
    requires m.Valid() && IsRequest(r)
    modifies m, m.bytes
    ensures m.Valid() && m.rules == Pattern(r)
  {
    m.Init();
    var first := m.AddRule([r.event], 0);
    assert m.rules == [Rule(0, [r.event])] by { OnePacked(Rule(0, [r.event])); }
    if r.event != INQUIRY_COMPLETE {
      OnePacked(Rule(0, [r.event]));
      var second := m.AddRule(r.key, KeyOffset(r.event));
    }
  }

  lemma OnePacked(r: Rule)
    requires |r.data| < 0x100
    ensures Pack([]) == [] && |Pack([r])| == 2 + |r.data|
  {
    assert [r][1..] == [];
  }
}
