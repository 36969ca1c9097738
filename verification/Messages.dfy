/** Chat messages and the token estimate. */
module Messages {

  datatype Role = System | User | Assistant | Tool

  /** A tool use carries its input as the serialized JSON text. */
  datatype Part =
    | TextPart(text: string)
    | ToolUse(id: string, name: string, input: string)
    | ToolResult(toolUseId: string, content: string, isError: bool)
    | Image(mediaType: string, data: string)

  datatype Content = Text(text: string) | Parts(parts: seq<Part>)

  datatype Message = Message(role: Role, content: Content)

  function UseIdsOf(parts: seq<Part>): seq<string> {
    if parts == [] then []
    else (if parts[0].ToolUse? then [parts[0].id] else []) + UseIdsOf(parts[1..])
  }

  function ResultIdsOf(parts: seq<Part>): seq<string> {
    if parts == [] then []
    else (if parts[0].ToolResult? then [parts[0].toolUseId] else []) + ResultIdsOf(parts[1..])
  }

  function UseIds(m: Message): seq<string> {
    if m.content.Parts? then UseIdsOf(m.content.parts) else []
  }

  function ResultIds(m: Message): seq<string> {
    if m.content.Parts? then ResultIdsOf(m.content.parts) else []
  }

  lemma {:induction false} IdsOfParts(parts: seq<Part>, id: string)
    ensures id in UseIdsOf(parts) <==> exists p :: p in parts && p.ToolUse? && p.id == id
    ensures id in ResultIdsOf(parts) <==> exists p :: p in parts && p.ToolResult? && p.toolUseId == id
  {
    if parts != [] {
      IdsOfParts(parts[1..], id);
      assert parts == [parts[0]] + parts[1..];
    }
  }

  /** The ids a message uses are those of its tool uses, the ids it answers those of its tool results. */
  lemma IdsMeaning(m: Message, id: string)
    ensures id in UseIds(m) <==> m.content.Parts? && exists p :: p in m.content.parts && p.ToolUse? && p.id == id
    ensures id in ResultIds(m) <==>
              m.content.Parts? && exists p :: p in m.content.parts && p.ToolResult? && p.toolUseId == id
  {
    if m.content.Parts? {
      IdsOfParts(m.content.parts, id);
    }
  }

  /** A message of both kinds. */
  predicate Mixed(m: Message) {
    UseIds(m) != [] && ResultIds(m) != []
  }

  lemma MixedMeaning(m: Message)
    ensures Mixed(m) <==>
              && m.content.Parts? && (exists p :: p in m.content.parts && p.ToolUse?)
              && exists p :: p in m.content.parts && p.ToolResult?
  {
    if Mixed(m) {
      IdsMeaning(m, UseIds(m)[0]);
      IdsMeaning(m, ResultIds(m)[0]);
    }
    if m.content.Parts? {
      forall p | p in m.content.parts
        ensures (p.ToolUse? ==> UseIds(m) != []) && (p.ToolResult? ==> ResultIds(m) != [])
      {
        if p.ToolUse? {
          IdsMeaning(m, p.id);
        }
        if p.ToolResult? {
          IdsMeaning(m, p.toolUseId);
        }
      }
    }
  }

  /** Some message of the list offers the tool use `id`. */
  predicate Offers(messages: seq<Message>, id: string) {
    exists k :: 0 <= k < |messages| && id in UseIds(messages[k])
  }

  /** Every tool result has its tool use in the list. */
  ghost predicate NoOrphans(messages: seq<Message>) {
    forall k, id :: 0 <= k < |messages| && id in ResultIds(messages[k]) ==> Offers(messages, id)
  }

  // ---------------------------------------------------------------------
  // Token estimate
  // ---------------------------------------------------------------------

  function Utf8Size(c: char): nat {
    if c as int < 0x80 then 1 else if c as int < 0x800 then 2 else if c as int < 0x10000 then 3 else 4
  }

  /** The bits of a code point that `size` bytes hold: 7 in one byte, and in more bytes 6 in each but the first, which
      loses one to its mark for each byte, and one more. */
  function PayloadBits(size: nat): nat {
    if size == 1 then 7 else if size == 0 then 0 else 6 * (size - 1) + (7 - size)
  }

  function TwoTo(bits: nat): nat {
    if bits == 0 then 1 else 2 * TwoTo(bits - 1)
  }

  /** The size is the least that holds the character. */
  lemma Utf8SizeIsLeast(c: char)
    ensures 1 <= Utf8Size(c) <= 4 && c as int < TwoTo(PayloadBits(Utf8Size(c)))
    ensures Utf8Size(c) > 1 ==> c as int >= TwoTo(PayloadBits(Utf8Size(c) - 1))
  {
    assert TwoTo(7) == 0x80 && TwoTo(11) == 16 * TwoTo(7) && TwoTo(16) == 32 * TwoTo(11) && TwoTo(21) == 32 * TwoTo(16);
  }

  /** The length of the UTF-8 encoding. */
  function ByteLength(s: string): nat {
    if s == "" then 0 else Utf8Size(s[0]) + ByteLength(s[1..])
  }

  lemma {:induction false} ByteLengthConcat(s: string, t: string)
    ensures ByteLength(s + t) == ByteLength(s) + ByteLength(t)
  {
    if s == "" {
      assert s + t == t;
    } else {
      assert (s + t)[1..] == s[1..] + t;
      ByteLengthConcat(s[1..], t);
    }
  }

  function EstimateTokens(s: string): nat {
    ByteLength(s) / 4
  }

  const IMAGE_TOKEN_ESTIMATE: nat := 1000

  function PartTokens(p: Part): nat {
    match p
    case TextPart(text) => EstimateTokens(text)
    case ToolUse(_, _, input) => EstimateTokens(input)
    case ToolResult(_, content, _) => EstimateTokens(content)
    case Image(_, _) => IMAGE_TOKEN_ESTIMATE
  }

  function PartsTokens(parts: seq<Part>): nat {
    if parts == [] then 0 else PartTokens(parts[0]) + PartsTokens(parts[1..])
  }

  /** What a part counts for, wherever it is: an image 1000, and any other a quarter of the bytes of its text, its input
      or its content, rounded down. */
  lemma {:induction false} PartsCount(a: seq<Part>, p: Part, b: seq<Part>)
    ensures PartsTokens(a + [p] + b) ==
            PartsTokens(a) + PartsTokens(b)
            + (match p
               case Image(_, _) => 1000
               case TextPart(text) => ByteLength(text) / 4
               case ToolUse(_, _, input) => ByteLength(input) / 4
               case ToolResult(_, content, _) => ByteLength(content) / 4)
  {
    if a == [] {
      assert (a + [p] + b)[1..] == b;
    } else {
      assert (a + [p] + b)[1..] == a[1..] + [p] + b;
      PartsCount(a[1..], p, b);
    }
  }

  function MessageTokens(m: Message): nat {
    match m.content
    case Text(text) => EstimateTokens(text)
    case Parts(parts) => PartsTokens(parts)
  }

  function TotalTokens(messages: seq<Message>): nat {
    if messages == [] then 0 else MessageTokens(messages[0]) + TotalTokens(messages[1..])
  }

  lemma {:induction false} TotalTokensConcat(a: seq<Message>, b: seq<Message>)
    ensures TotalTokens(a + b) == TotalTokens(a) + TotalTokens(b)
  {
    if a == [] {
      assert a + b == b;
    } else {
      assert (a + b)[1..] == a[1..] + b;
      TotalTokensConcat(a[1..], b);
    }
  }
}
