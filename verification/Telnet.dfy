/** The Telnet byte filter of the device connection, on a stream cut into arbitrary chunks. */
module Telnet {
  import opened Bits
  import opened Optional

  const IAC: Byte := 255
  const DONT: Byte := 254
  const DO: Byte := 253
  const WONT: Byte := 252
  const WILL: Byte := 251
  const SB: Byte := 250
  const SE: Byte := 240

  predicate IsNegotiation(b: Byte) {
    b == DO || b == DONT || b == WILL || b == WONT
  }

  // ---------- Well-formed streams (RFC 854 and RFC 855) ----------

  /** One element of a stream: a data byte, a plain command, an option negotiation or a subnegotiation. */
  datatype Item =
    | Data(b: Byte)
    | Command(c: Byte)
    | Negotiation(verb: Byte, option: Byte)
    | Subnegotiation(payload: seq<Byte>)
  {
    /** Not every number is a plain command: 255 would be data, and the others begin longer sequences. */
    predicate WellFormed() {
      match this
      case Data(_) => true
      case Command(c) => c != IAC && c != SB && !IsNegotiation(c)
      case Negotiation(verb, _) => IsNegotiation(verb)
      case Subnegotiation(_) => true
    }

    /** The bytes on the wire: a 255 that is data, or part of a subnegotiation, is doubled. */
    function Bytes(): seq<Byte> {
      match this
      case Data(b) => Doubled(b)
      case Command(c) => [IAC, c]
      case Negotiation(verb, option) => [IAC, verb, option]
      case Subnegotiation(payload) => [IAC, SB] + AllDoubled(payload) + [IAC, SE]
    }

    function Text(): seq<Byte> {
      if Data? then [b] else []
    }

    /** Every option is refused: WONT for DO, DONT for WILL, and no answer to a refusal. */
    function Answer(): seq<Byte> {
      if Negotiation? && verb == DO then [IAC, WONT, option]
      else if Negotiation? && verb == WILL then [IAC, DONT, option]
      else []
    }
  }

  function Doubled(b: Byte): seq<Byte> {
    if b == IAC then [IAC, IAC] else [b]
  }

  function AllDoubled(bs: seq<Byte>): seq<Byte> {
    if bs == [] then [] else Doubled(bs[0]) + AllDoubled(bs[1..])
  }

  function Wire(items: seq<Item>): seq<Byte> {
    if items == [] then [] else items[0].Bytes() + Wire(items[1..])
  }

  function Text(items: seq<Item>): seq<Byte> {
    if items == [] then [] else items[0].Text() + Text(items[1..])
  }

  function Answers(items: seq<Item>): seq<Byte> {
    if items == [] then [] else items[0].Answer() + Answers(items[1..])
  }

  /** The commands in numbers (RFC 854): DO is 253, WONT 252, WILL 251 and DONT 254. */
  lemma Numbers(option: Byte, payload: seq<Byte>)
    ensures var ask, offer := Negotiation(253, option), Negotiation(251, option);
            && ask.Bytes() == [255, 253, option] && ask.Answer() == [255, 252, option]
            && offer.Bytes() == [255, 251, option] && offer.Answer() == [255, 254, option]
    ensures Negotiation(252, option).Answer() == [] && Negotiation(254, option).Answer() == []
    ensures Data(255).Bytes() == [255, 255] && Data(255).Text() == [255]
    ensures Subnegotiation(payload).Bytes() == [255, 250] + AllDoubled(payload) + [255, 240]
  {
  }

  // ---------- The filter ----------

  datatype State = InData | InIac | InNegotiation(command: Byte) | InSubnegotiation | InSubnegotiationIac

  /** A state, the text passed on so far and the bytes sent back so far. */
  datatype Progress = Progress(state: State, text: seq<Byte>, sent: seq<Byte>)

  function Next(p: Progress, b: Byte): Progress {
    match p.state
    case InData => if b == IAC then p.(state := InIac) else p.(text := p.text + [b])
    case InIac =>
      if b == IAC then p.(state := InData, text := p.text + [IAC])
      else if IsNegotiation(b) then p.(state := InNegotiation(b))
      else if b == SB then p.(state := InSubnegotiation)
      else p.(state := InData)
    case InNegotiation(command) => Progress(InData, p.text, p.sent + Negotiation(command, b).Answer())
    case InSubnegotiation => if b == IAC then p.(state := InSubnegotiationIac) else p
    case InSubnegotiationIac => p.(state := if b == SE then InData else InSubnegotiation)
  }

  function Run(p: Progress, raw: seq<Byte>): Progress
    decreases |raw|
  {
    if raw == [] then p else Run(Next(p, raw[0]), raw[1..])
  }

  /** Where the stream is cut makes no difference. */
  lemma {:induction false} RunConcat(p: Progress, a: seq<Byte>, b: seq<Byte>)
    ensures Run(p, a + b) == Run(Run(p, a), b)
    decreases |a|
  {
    if a == [] {
      assert a + b == b;
    } else {
      assert (a + b)[0] == a[0] && (a + b)[1..] == a[1..] + b;
      RunConcat(Next(p, a[0]), a[1..], b);
    }
  }

  lemma RunOne(p: Progress, b: Byte)
    ensures Run(p, [b]) == Next(p, b)
  {
    assert [b][1..] == [];
  }

  lemma RunTwo(p: Progress, b: Byte, c: Byte)
    ensures Run(p, [b, c]) == Next(Next(p, b), c)
  {
    assert [b, c][1..] == [c];
    RunOne(Next(p, b), c);
  }

  lemma {:induction false} PayloadSkipped(p: Progress, bs: seq<Byte>)
    requires p.state == InSubnegotiation
    ensures Run(p, AllDoubled(bs)) == p
  {
    if bs != [] {
      RunConcat(p, Doubled(bs[0]), AllDoubled(bs[1..]));
      RunOne(p, bs[0]);
      RunTwo(p, IAC, IAC);
      PayloadSkipped(p, bs[1..]);
    }
  }

  lemma SubnegotiationSkipped(p: Progress, payload: seq<Byte>)
    requires p.state == InData
    ensures Run(p, Subnegotiation(payload).Bytes()) == p
  {
    var head, body, tail: seq<Byte> := [IAC, SB], AllDoubled(payload), [IAC, SE];
    RunConcat(p, head + body, tail);
    RunConcat(p, head, body);
    RunTwo(p, IAC, SB);
    PayloadSkipped(p.(state := InSubnegotiation), payload);
    RunTwo(p.(state := InSubnegotiation), IAC, SE);
  }

  lemma ItemFiltered(p: Progress, item: Item)
    requires p.state == InData && item.WellFormed()
    ensures Run(p, item.Bytes()) == Progress(InData, p.text + item.Text(), p.sent + item.Answer())
  {
    assert p.text + [] == p.text && p.sent + [] == p.sent;
    match item
    case Data(b) =>
      RunOne(p, b);
      RunTwo(p, IAC, IAC);
    case Command(c) =>
      RunTwo(p, IAC, c);
    case Negotiation(verb, option) =>
      RunConcat(p, [IAC, verb], [option]);
      RunTwo(p, IAC, verb);
      RunOne(p.(state := InNegotiation(verb)), option);
      assert [IAC, verb] + [option] == item.Bytes();
    case Subnegotiation(payload) =>
      SubnegotiationSkipped(p, payload);
  }

  lemma {:induction false} StreamFiltered(p: Progress, items: seq<Item>)
    requires p.state == InData && forall i :: 0 <= i < |items| ==> items[i].WellFormed()
    ensures Run(p, Wire(items)) == Progress(InData, p.text + Text(items), p.sent + Answers(items))
    decreases |items|
  {
    if items == [] {
      assert p.text + [] == p.text && p.sent + [] == p.sent;
    } else {
      hide Run;
      var item, rest := items[0], items[1..];
      RunConcat(p, item.Bytes(), Wire(rest));
      ItemFiltered(p, item);
      StreamFiltered(Progress(InData, p.text + item.Text(), p.sent + item.Answer()), rest);
      Associate(p.text, item.Text(), Text(rest));
      Associate(p.sent, item.Answer(), Answers(rest));
    }
  }

  // ---------- The connection ----------

  class TelnetConnection {
    var iacState: string
    var iacCommand: Option<Byte>
    var sent: seq<Byte>  // what `sendall` has been given

    ghost predicate Valid()
      reads this
    {
      && iacState in ["data", "iac", "negotiation", "subnegotiation", "subnegotiation_iac"]
      && (iacCommand.Some? <==> iacState == "negotiation")
    }

    ghost function State(): State
      requires Valid()
      reads this
    {
      if iacState == "data" then InData
      else if iacState == "iac" then InIac
      else if iacState == "negotiation" then InNegotiation(iacCommand.value)
      else if iacState == "subnegotiation" then InSubnegotiation
      else InSubnegotiationIac
    }

    constructor ()
      ensures Valid() && State() == InData && sent == []
    {
      iacState, iacCommand, sent := "data", None, [];
    }

    /** `_send_telnet_response` */
    method SendResponse(command: Byte, option: Byte)
      modifies this`sent
      ensures sent == old(sent) + Negotiation(command, option).Answer()
    {
      if command == DO {
        sent := sent + [IAC, WONT, option];
      } else if command == WILL {
        sent := sent + [IAC, DONT, option];
      }
    }

    /** The body of the loop in `_filter_telnet_bytes`. */
    method FilterByte(output0: seq<Byte>, byte: Byte) returns (output: seq<Byte>)
      requires Valid()
      modifies this
      ensures Valid()
      ensures Progress(State(), output, sent) == Next(Progress(old(State()), output0, old(sent)), byte)
    {
      output := output0;
      if iacState == "data" {
        if byte == IAC {
          iacState := "iac";
        } else {
          output := output + [byte];
        }
      } else if iacState == "iac" {
        if byte == IAC {
          output := output + [IAC];
          iacState := "data";
        } else if byte == DO || byte == DONT || byte == WILL || byte == WONT {
          iacCommand := Some(byte);
          iacState := "negotiation";
        } else if byte == SB {
          iacState := "subnegotiation";
        } else {
          iacState := "data";
        }
      } else if iacState == "negotiation" {
        SendResponse(iacCommand.value, byte);
        iacCommand := None;
        iacState := "data";
      } else if iacState == "subnegotiation" {
        if byte == IAC {
          iacState := "subnegotiation_iac";
        }
      } else if iacState == "subnegotiation_iac" {
        if byte == SE {
          iacState := "data";
        } else {
          iacState := "subnegotiation";
        }
      }
    }

    /** `_filter_telnet_bytes` on one chunk. */
    method Filter(raw: seq<Byte>) returns (output: seq<Byte>)
      requires Valid()
      modifies this
      ensures Valid()
      ensures Progress(State(), output, sent) == Run(Progress(old(State()), [], old(sent)), raw)
    {
      output := [];
      for i := 0 to |raw|
        invariant Valid()
        invariant Run(Progress(State(), output, sent), raw[i..]) == Run(Progress(old(State()), [], old(sent)), raw)
      {
        output := FilterByte(output, raw[i]);
        assert raw[i..][1..] == raw[i + 1..];
      }
    }

    /** A well-formed stream received in any chunks: the data comes out, every offer is refused, and nothing else. */
    method FilterChunks(chunks: seq<seq<Byte>>, ghost items: seq<Item>) returns (text: seq<Byte>)
      requires Valid() && State() == InData
      requires Concat(chunks) == Wire(items) && forall i :: 0 <= i < |items| ==> items[i].WellFormed()
      modifies this
      ensures Valid() && State() == InData
      ensures text == Text(items) && sent == old(sent) + Answers(items)
    {
      text := [];
      ghost var start := Progress(State(), [], sent);
      for i := 0 to |chunks|
        invariant Valid() && Run(Progress(State(), text, sent), Concat(chunks[i..])) == Run(start, Concat(chunks))
      {
        ghost var before := Progress(State(), text, sent);
        var output := Filter(chunks[i]);
        TextOnly(before.state, text, before.sent, chunks[i]);
        assert chunks[i..][1..] == chunks[i + 1..];
        RunConcat(before, chunks[i], Concat(chunks[i + 1..]));
        text := text + output;
      }
      StreamFiltered(start, items);
    }
  }

  function Concat(chunks: seq<seq<Byte>>): seq<Byte> {
    if chunks == [] then [] else chunks[0] + Concat(chunks[1..])
  }

  /** The text already passed on plays no part. */
  lemma {:induction false} TextOnly(state: State, text: seq<Byte>, sent: seq<Byte>, raw: seq<Byte>)
    ensures var p := Run(Progress(state, [], sent), raw);
            Run(Progress(state, text, sent), raw) == p.(text := text + p.text)
  {
    TextPrefix(Progress(state, [], sent), text, raw);
    assert text + [] == text;
  }

  lemma {:induction false} TextPrefix(p: Progress, text: seq<Byte>, raw: seq<Byte>)
    ensures Run(p.(text := text + p.text), raw) == Run(p, raw).(text := text + Run(p, raw).text)
    decreases |raw|
  {
    if raw != [] {
      var b := raw[0];
      assert Next(p.(text := text + p.text), b) == Next(p, b).(text := text + Next(p, b).text);
      TextPrefix(Next(p, b), text, raw[1..]);
    }
  }
}
