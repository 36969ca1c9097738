/** Stripping tool parts and images from the messages of a request, and the list that is sent in the end. */
module Stripping {
  import opened Wrappers
  import opened Messages
  import opened Turns
  import opened HistoryPruning

  // ---------------------------------------------------------------------
  // Stripping
  // ---------------------------------------------------------------------

  function WithoutToolParts(parts: seq<Part>): seq<Part> {
    if parts == [] then []
    else (if parts[0].ToolUse? || parts[0].ToolResult? then [] else [parts[0]]) + WithoutToolParts(parts[1..])
  }

  function WithoutImages(parts: seq<Part>): seq<Part> {
    if parts == [] then []
    else (if parts[0].Image? then [] else [parts[0]]) + WithoutImages(parts[1..])
  }

  /** A single remaining text part becomes plain text. */
  function Flattened(parts: seq<Part>): Content {
    if |parts| == 1 && parts[0].TextPart? then Text(parts[0].text) else Parts(parts)
  }

  function StripTools(m: Message): Message {
    if m.content.Parts? then m.(content := Flattened(WithoutToolParts(m.content.parts))) else m
  }

  function StripImages(m: Message): Message {
    if m.content.Parts? then m.(content := Flattened(WithoutImages(m.content.parts))) else m
  }

  predicate IsEmpty(m: Message) {
    match m.content
    case Text(text) => text == ""
    case Parts(parts) => parts == []
  }

  /** What is left of one message: tool messages go, tool parts go, and so do messages that are empty then. */
  function StrippedMessage(m: Message): seq<Message> {
    if m.role == Tool || IsEmpty(StripTools(m)) then [] else [StripTools(m)]
  }

  function StrippedOlder(messages: seq<Message>): (stripped: seq<Message>) {
    if messages == [] then [] else StrippedMessage(messages[0]) + StrippedOlder(messages[1..])
  }

  predicate IsToolPart(p: Part) { p.ToolUse? || p.ToolResult? }

  /** The parts of a message; plain text is one part. */
  function PartsOf(m: Message): seq<Part> {
    match m.content
    case Text(text) => [TextPart(text)]
    case Parts(parts) => parts
  }

  lemma {:induction false} FirstPart(p: Part, parts: seq<Part>)
    ensures WithoutToolParts([p] + parts) ==
            (if p.ToolUse? || p.ToolResult? then [] else [p]) + WithoutToolParts(parts)
    ensures WithoutImages([p] + parts) == (if p.Image? then [] else [p]) + WithoutImages(parts)
  {
    assert ([p] + parts)[1..] == parts;
  }

  lemma Shifted<T>(a: seq<T>, b: seq<T>, c: seq<T>, d: seq<T>)
    ensures a + (b + c + d) == (a + b) + c + d
  {
  }

  /** Exactly the tool parts go, wherever they are, and the others stay in order. */
  lemma {:induction false} ToolPartsGo(a: seq<Part>, p: Part, b: seq<Part>)
    ensures WithoutToolParts(a + [p] + b) ==
            WithoutToolParts(a) + (if p.ToolUse? || p.ToolResult? then [] else [p]) + WithoutToolParts(b)
  {
    FirstPart(p, b);
    if a == [] {
      assert a + [p] + b == [p] + b;
    } else {
      Shifted([a[0]], a[1..], [p], b);
      assert [a[0]] + a[1..] == a;
      FirstPart(a[0], a[1..]);
      FirstPart(a[0], a[1..] + [p] + b);
      ToolPartsGo(a[1..], p, b);
      Shifted(if a[0].ToolUse? || a[0].ToolResult? then [] else [a[0]], WithoutToolParts(a[1..]),
              if p.ToolUse? || p.ToolResult? then [] else [p], WithoutToolParts(b));
    }
  }

  /** Exactly the images go, wherever they are, and the others stay in order. */
  lemma {:induction false} ImagesGo(a: seq<Part>, p: Part, b: seq<Part>)
    ensures WithoutImages(a + [p] + b) == WithoutImages(a) + (if p.Image? then [] else [p]) + WithoutImages(b)
  {
    FirstPart(p, b);
    if a == [] {
      assert a + [p] + b == [p] + b;
    } else {
      Shifted([a[0]], a[1..], [p], b);
      assert [a[0]] + a[1..] == a;
      FirstPart(a[0], a[1..]);
      FirstPart(a[0], a[1..] + [p] + b);
      ImagesGo(a[1..], p, b);
      Shifted(if a[0].Image? then [] else [a[0]], WithoutImages(a[1..]),
              if p.Image? then [] else [p], WithoutImages(b));
    }
  }

  lemma {:induction false} NoneIsLeft(parts: seq<Part>)
    ensures forall p :: p in WithoutImages(parts) ==> !p.Image?
    ensures forall p :: p in WithoutToolParts(parts) ==> !p.ToolUse? && !p.ToolResult?
  {
    if parts != [] {
      NoneIsLeft(parts[1..]);
    }
  }

  lemma {:induction false} FlatteningKeepsParts(role: Role, parts: seq<Part>)
    ensures PartsOf(Message(role, Flattened(parts))) == parts
  {
  }

  lemma {:induction false} TextIsKept(text: string)
    ensures WithoutImages([TextPart(text)]) == WithoutToolParts([TextPart(text)]) == [TextPart(text)]
  {
    assert [TextPart(text)][1..] == [];
  }

  /** Stripping images leaves the sender and the other parts, and no image. */
  lemma StripImagesMeaning(m: Message)
    ensures StripImages(m).role == m.role && PartsOf(StripImages(m)) == WithoutImages(PartsOf(m))
    ensures forall p :: p in PartsOf(StripImages(m)) ==> !p.Image?
  {
    NoneIsLeft(PartsOf(m));
    match m.content
    case Text(text) => TextIsKept(text);
    case Parts(parts) => FlatteningKeepsParts(m.role, WithoutImages(parts));
  }

  /** Stripping tools leaves the sender and the other parts, and no tool part. */
  lemma StripToolsMeaning(m: Message)
    ensures StripTools(m).role == m.role && PartsOf(StripTools(m)) == WithoutToolParts(PartsOf(m))
    ensures forall p :: p in PartsOf(StripTools(m)) ==> !p.ToolUse? && !p.ToolResult?
  {
    NoneIsLeft(PartsOf(m));
    match m.content
    case Text(text) => TextIsKept(text);
    case Parts(parts) => FlatteningKeepsParts(m.role, WithoutToolParts(parts));
  }

  lemma {:induction false} NoToolPartsIff(parts: seq<Part>)
    ensures |WithoutToolParts(parts)| <= |parts|
    ensures WithoutToolParts(parts) == parts <==> forall i :: 0 <= i < |parts| ==> !IsToolPart(parts[i])
  {
    if parts != [] {
      NoToolPartsIff(parts[1..]);
      assert parts == [parts[0]] + parts[1..];
    }
  }

  /** Messages of users are documented as unchanged. Whoever it is from, a message is exactly if it is neither
      empty nor a tool message, has no tool parts, and is not a single text part. */
  lemma UnchangedIff(m: Message)
    ensures StrippedMessage(m) == [m] <==>
              m.role != Tool && !IsEmpty(m)
              && (m.content.Parts? ==>
                    var parts := m.content.parts;
                    (forall i :: 0 <= i < |parts| ==> !IsToolPart(parts[i])) && !(|parts| == 1 && parts[0].TextPart?))
  {
    if m.content.Parts? {
      NoToolPartsIff(m.content.parts);
    }
  }

  /** Messages of users do change: a single text part becomes plain text, a tool result goes, and an empty message
      goes altogether. */
  lemma UserMessagesChange()
    ensures StrippedMessage(Message(User, Parts([TextPart("hi")]))) == [Message(User, Text("hi"))]
    ensures var answered := [TextPart("hi"), ToolResult("x", "done", false)];
            StrippedMessage(Message(User, Parts(answered))) == [Message(User, Text("hi"))]
    ensures StrippedMessage(Message(User, Text(""))) == []
  {
    var text, result := TextPart("hi"), ToolResult("x", "done", false);
    assert [text][1..] == [] && [text, result][1..] == [result] && [result][1..] == [];
    assert WithoutToolParts([result]) == [] && WithoutToolParts([text]) == [text];
    assert WithoutToolParts([text, result]) == [text];
  }

  predicate NotTool(m: Message) { m.role != Tool }

  predicate NotEmpty(m: Message) { !IsEmpty(m) }

  function Edited(messages: seq<Message>): (edited: seq<Message>) {
    seq(|messages|, i requires 0 <= i < |messages| => StripTools(messages[i]))
  }

  lemma EditedCons(m: Message, messages: seq<Message>)
    ensures Edited([m] + messages) == [StripTools(m)] + Edited(messages)
  {
  }

  /** A message goes if it is a tool message, or nothing but an empty text is left of its other parts. */
  lemma MessageGoesIff(m: Message)
    ensures StrippedMessage(m) ==
            if m.role == Tool || WithoutToolParts(PartsOf(m)) in {[], [TextPart("")]} then [] else [StripTools(m)]
  {
    match m.content
    case Text(text) => TextIsKept(text);
    case Parts(parts) =>
      var rest := WithoutToolParts(parts);
      assert |rest| == 1 && rest[0].TextPart? ==> rest == [TextPart(rest[0].text)];
  }

  lemma {:induction false} FirstMessage(m: Message, messages: seq<Message>)
    ensures StrippedOlder([m] + messages) == StrippedMessage(m) + StrippedOlder(messages)
  {
    assert ([m] + messages)[1..] == messages;
  }

  /** Each of the older messages goes or stays, wherever it is, and those that stay are in order. */
  lemma {:induction false} OlderMessagesGo(a: seq<Message>, m: Message, b: seq<Message>)
    ensures StrippedOlder(a + [m] + b) ==
            StrippedOlder(a)
            + (if m.role == Tool || WithoutToolParts(PartsOf(m)) in {[], [TextPart("")]} then [] else [StripTools(m)])
            + StrippedOlder(b)
  {
    MessageGoesIff(m);
    FirstMessage(m, b);
    if a == [] {
      assert a + [m] + b == [m] + b;
    } else {
      Shifted([a[0]], a[1..], [m], b);
      assert [a[0]] + a[1..] == a;
      FirstMessage(a[0], a[1..]);
      FirstMessage(a[0], a[1..] + [m] + b);
      OlderMessagesGo(a[1..], m, b);
      Shifted(StrippedMessage(a[0]), StrippedOlder(a[1..]), StrippedMessage(m), StrippedOlder(b));
    }
  }

  /** Dropping tool messages, editing the rest and dropping what is empty then does to each message what is done to
      it alone. */
  lemma {:induction false} ThreePasses(messages: seq<Message>)
    ensures Retained(Edited(Retained(messages, NotTool)), NotEmpty) == StrippedOlder(messages)
  {
    if messages != [] {
      var m, rest := messages[0], Retained(messages[1..], NotTool);
      ThreePasses(messages[1..]);
      assert messages == [m] + messages[1..];
      RetainedCons(m, messages[1..], NotTool);
      if m.role != Tool {
        EditedCons(m, rest);
        RetainedCons(StripTools(m), Edited(rest), NotEmpty);
      } else {
        assert [] + rest == rest && [] + StrippedOlder(messages[1..]) == StrippedOlder(messages[1..]);
      }
    }
  }

  /** The three passes over the list. */
  method StripToolMessagesFromOlder(messages: seq<Message>) returns (stripped: seq<Message>)
    ensures stripped == StrippedOlder(messages)
  {
    stripped := Retain(messages, NotTool);
    ghost var retained := stripped;
    for i := 0 to |stripped|
      invariant |stripped| == |retained|
      invariant forall j :: 0 <= j < |stripped| ==>
                  stripped[j] == if j < i then StripTools(retained[j]) else retained[j]
    {
      stripped := stripped[i := StripTools(stripped[i])];
    }
    assert stripped == Edited(retained);
    stripped := Retain(stripped, NotEmpty);
    ThreePasses(messages);
  }

  function ImagesStripped(messages: seq<Message>): (stripped: seq<Message>) {
    seq(|messages|, i requires 0 <= i < |messages| => StripImages(messages[i]))
  }

  // ---------------------------------------------------------------------
  // The final list
  // ---------------------------------------------------------------------

  /** Messages in order: what was injected, older history without tool parts, recent messages; images go
      for a model without vision. */
  function Assembled(injected: seq<Message>, keptOlder: seq<Message>, recent: seq<Message>, vision: bool)
    : (all: seq<Message>)
  {
    var all := injected + StrippedOlder(keptOlder) + recent;
    if vision then all else ImagesStripped(all)
  }

  ghost function FinalMessages(injected: seq<Message>, keptOlder: seq<Message>, recent: seq<Message>, vision: bool)
    : (final: seq<Message>)
  {
    WithoutOrphans(Assembled(injected, keptOlder, recent, vision))
  }

  lemma {:induction false} IdsWithoutToolParts(parts: seq<Part>)
    ensures UseIdsOf(WithoutToolParts(parts)) == [] && ResultIdsOf(WithoutToolParts(parts)) == []
  {
    if parts != [] {
      IdsWithoutToolParts(parts[1..]);
      var head := if parts[0].ToolUse? || parts[0].ToolResult? then [] else [parts[0]];
      IdsConcat(head, WithoutToolParts(parts[1..]));
    }
  }

  lemma {:induction false} IdsCons(p: Part, parts: seq<Part>)
    ensures UseIdsOf([p] + parts) == (if p.ToolUse? then [p.id] else []) + UseIdsOf(parts)
    ensures ResultIdsOf([p] + parts) == (if p.ToolResult? then [p.toolUseId] else []) + ResultIdsOf(parts)
  {
    assert ([p] + parts)[1..] == parts;
  }

  lemma {:induction false} UseIdsConcat(a: seq<Part>, b: seq<Part>)
    ensures UseIdsOf(a + b) == UseIdsOf(a) + UseIdsOf(b)
  {
    if a == [] {
      assert a + b == b;
    } else {
      UseIdsConcat(a[1..], b);
      assert a + b == [a[0]] + (a[1..] + b);
      IdsCons(a[0], a[1..] + b);
      Regrouped(if a[0].ToolUse? then [a[0].id] else [], UseIdsOf(a[1..]), UseIdsOf(b));
    }
  }

  lemma {:induction false} ResultIdsConcat(a: seq<Part>, b: seq<Part>)
    ensures ResultIdsOf(a + b) == ResultIdsOf(a) + ResultIdsOf(b)
  {
    if a == [] {
      assert a + b == b;
    } else {
      ResultIdsConcat(a[1..], b);
      assert a + b == [a[0]] + (a[1..] + b);
      IdsCons(a[0], a[1..] + b);
      Regrouped(if a[0].ToolResult? then [a[0].toolUseId] else [], ResultIdsOf(a[1..]), ResultIdsOf(b));
    }
  }

  lemma {:induction false} IdsConcat(a: seq<Part>, b: seq<Part>)
    ensures UseIdsOf(a + b) == UseIdsOf(a) + UseIdsOf(b) && ResultIdsOf(a + b) == ResultIdsOf(a) + ResultIdsOf(b)
  {
    UseIdsConcat(a, b);
    ResultIdsConcat(a, b);
  }

  lemma {:induction false} IdsWithoutImages(parts: seq<Part>)
    ensures UseIdsOf(WithoutImages(parts)) == UseIdsOf(parts) && ResultIdsOf(WithoutImages(parts)) == ResultIdsOf(parts)
  {
    if parts != [] {
      IdsWithoutImages(parts[1..]);
      IdsConcat(if parts[0].Image? then [] else [parts[0]], WithoutImages(parts[1..]));
    }
  }

  lemma {:induction false} FlatteningKeepsIds(role: Role, parts: seq<Part>)
    ensures UseIds(Message(role, Flattened(parts))) == UseIdsOf(parts)
    ensures ResultIds(Message(role, Flattened(parts))) == ResultIdsOf(parts)
  {
  }

  lemma StrippingImagesKeepsIds(m: Message)
    ensures UseIds(StripImages(m)) == UseIds(m) && ResultIds(StripImages(m)) == ResultIds(m)
  {
    if m.content.Parts? {
      IdsWithoutImages(m.content.parts);
      FlatteningKeepsIds(m.role, WithoutImages(m.content.parts));
    }
  }

  lemma {:induction false} OlderHasNoIds(messages: seq<Message>)
    ensures forall k :: 0 <= k < |StrippedOlder(messages)| ==>
              UseIds(StrippedOlder(messages)[k]) == [] && ResultIds(StrippedOlder(messages)[k]) == []
  {
    if messages != [] {
      OlderHasNoIds(messages[1..]);
      var m := messages[0];
      if m.content.Parts? {
        IdsWithoutToolParts(m.content.parts);
        FlatteningKeepsIds(m.role, WithoutToolParts(m.content.parts));
      }
    }
  }

  ghost predicate AllText(messages: seq<Message>) {
    forall k :: 0 <= k < |messages| ==> messages[k].content.Text?
  }

  /** `m` has the tool ids of message `j` of `recent`, and none when there is no such message. */
  ghost predicate IdsAsIn(m: Message, recent: seq<Message>, j: int)
    requires j < |recent|
  {
    && UseIds(m) == (if j < 0 then [] else UseIds(recent[j]))
    && ResultIds(m) == (if j < 0 then [] else ResultIds(recent[j]))
  }

  /** Only the last messages of `all` carry tool ids: those of `recent`. */
  ghost predicate IdsInTail(all: seq<Message>, recent: seq<Message>) {
    |recent| <= |all| && forall k :: 0 <= k < |all| ==> IdsAsIn(all[k], recent, k - (|all| - |recent|))
  }

  lemma PlainIds(injected: seq<Message>, older: seq<Message>, recent: seq<Message>)
    requires AllText(injected) && forall k :: 0 <= k < |older| ==> UseIds(older[k]) == [] && ResultIds(older[k]) == []
    ensures IdsInTail(injected + older + recent, recent)
  {
    var all := injected + older + recent;
    var n := |injected| + |older|;
    forall k | 0 <= k < |all| ensures IdsAsIn(all[k], recent, k - n) {
      assert all[k] == if k < |injected| then injected[k] else if k < n then older[k - |injected|] else recent[k - n];
    }
  }

  lemma IdsWithImagesStripped(all: seq<Message>, recent: seq<Message>)
    requires IdsInTail(all, recent)
    ensures IdsInTail(ImagesStripped(all), recent)
  {
    forall k | 0 <= k < |all|
      ensures UseIds(ImagesStripped(all)[k]) == UseIds(all[k]) && ResultIds(ImagesStripped(all)[k]) == ResultIds(all[k])
    {
      StrippingImagesKeepsIds(all[k]);
    }
  }

  /** In the assembled list only recent messages carry tool ids, the ones they have in the history. */
  lemma AssembledIds(injected: seq<Message>, keptOlder: seq<Message>, recent: seq<Message>, vision: bool)
    requires AllText(injected)
    ensures IdsInTail(Assembled(injected, keptOlder, recent, vision), recent)
  {
    OlderHasNoIds(keptOlder);
    PlainIds(injected, StrippedOlder(keptOlder), recent);
    if !vision {
      IdsWithImagesStripped(injected + StrippedOlder(keptOlder) + recent, recent);
    }
  }

  lemma AssembledOffers(injected: seq<Message>, keptOlder: seq<Message>, recent: seq<Message>, vision: bool, id: string)
    requires AllText(injected)
    ensures Offers(Assembled(injected, keptOlder, recent, vision), id) <==> Offers(recent, id)
  {
    AssembledIds(injected, keptOlder, recent, vision);
    OffersInTail(Assembled(injected, keptOlder, recent, vision), recent, id);
  }

  lemma OffersInTail(all: seq<Message>, recent: seq<Message>, id: string)
    requires IdsInTail(all, recent)
    ensures Offers(all, id) <==> Offers(recent, id)
  {
    if Offers(recent, id) {
      var k :| 0 <= k < |recent| && id in UseIds(recent[k]);
      OfferedByTail(all, recent, id, |all| - |recent| + k);
    } else if Offers(all, id) {
      var k :| 0 <= k < |all| && id in UseIds(all[k]);
      OfferedByTail(all, recent, id, k);
    }
  }

  lemma OfferedByTail(all: seq<Message>, recent: seq<Message>, id: string, k: nat)
    requires IdsInTail(all, recent) && k < |all|
    ensures id in UseIds(all[k]) <==> k >= |all| - |recent| && id in UseIds(recent[k - (|all| - |recent|)])
  {
    assert IdsAsIn(all[k], recent, k - (|all| - |recent|));
  }

  /** Exactly the messages with a result whose tool use is not among the recent ones are taken out: those
      whose pair the recent window cut, and no other. */
  lemma SurvivesIff(injected: seq<Message>, keptOlder: seq<Message>, recent: seq<Message>, vision: bool, m: Message)
    requires AllText(injected)
    ensures m in FinalMessages(injected, keptOlder, recent, vision) <==>
              && m in Assembled(injected, keptOlder, recent, vision)
              && forall id :: id in ResultIds(m) ==> Offers(recent, id)
  {
    var all := Assembled(injected, keptOlder, recent, vision);
    WithoutOrphansMeaning(all, m);
    forall id ensures Offers(all, id) <==> Offers(recent, id) {
      AssembledOffers(injected, keptOlder, recent, vision, id);
    }
  }

  // ---------------------------------------------------------------------
  // The list, written out
  // ---------------------------------------------------------------------

  /** The recent messages all of whose results have a tool use among the recent ones. */
  ghost function Survivors(recent: seq<Message>): (survivors: seq<Message>) {
    Retained(recent, Supported(recent))
  }

  lemma SupportedMeaning(messages: seq<Message>, m: Message)
    ensures Supported(messages)(m) <==> forall id :: id in ResultIds(m) ==> Offers(messages, id)
  {
  }

  lemma SameSupport(all: seq<Message>, recent: seq<Message>, m: Message)
    requires IdsInTail(all, recent)
    ensures Supported(all)(m) == Supported(recent)(m)
  {
    forall id ensures Offers(all, id) <==> Offers(recent, id) {
      OffersInTail(all, recent, id);
    }
  }

  lemma {:induction false} PlainSurvive(plain: seq<Message>, recent: seq<Message>)
    requires forall k :: 0 <= k < |plain| ==> ResultIds(plain[k]) == []
    ensures Retained(plain + recent, Supported(recent)) == plain + Survivors(recent)
  {
    RetainedConcat(plain, recent, Supported(recent));
    RetainedAll(plain, Supported(recent));
  }

  lemma NoResultIds(injected: seq<Message>, older: seq<Message>)
    requires AllText(injected) && forall k :: 0 <= k < |older| ==> UseIds(older[k]) == [] && ResultIds(older[k]) == []
    ensures forall k :: 0 <= k < |injected + older| ==> ResultIds((injected + older)[k]) == []
  {
  }

  /** With vision: injected messages, stripped older ones and surviving recent ones, unchanged and in this order. */
  lemma {:induction false} SentWithVision(injected: seq<Message>, keptOlder: seq<Message>, recent: seq<Message>)
    requires AllText(injected)
    ensures FinalMessages(injected, keptOlder, recent, true) == injected + StrippedOlder(keptOlder) + Survivors(recent)
  {
    var plain := injected + StrippedOlder(keptOlder);
    var all := plain + recent;
    OlderHasNoIds(keptOlder);
    NoResultIds(injected, StrippedOlder(keptOlder));
    PlainIds(injected, StrippedOlder(keptOlder), recent);
    forall k | 0 <= k < |all| ensures Supported(all)(all[k]) == Supported(recent)(all[k]) {
      SameSupport(all, recent, all[k]);
    }
    RetainedSame(all, Supported(all), Supported(recent));
    PlainSurvive(plain, recent);
  }

  lemma ImagesStrippedCons(m: Message, messages: seq<Message>)
    ensures ImagesStripped([m] + messages) == [StripImages(m)] + ImagesStripped(messages)
  {
  }

  lemma {:induction false} RetainedImages(messages: seq<Message>, keep: Message -> bool)
    requires forall m :: keep(StripImages(m)) == keep(m)
    ensures Retained(ImagesStripped(messages), keep) == ImagesStripped(Retained(messages, keep))
  {
    if messages != [] {
      var m, rest := messages[0], messages[1..];
      RetainedImages(rest, keep);
      assert messages == [m] + rest;
      ImagesStrippedCons(m, rest);
      RetainedCons(StripImages(m), ImagesStripped(rest), keep);
      RetainedCons(m, rest, keep);
      if keep(m) {
        ImagesStrippedCons(m, Retained(rest, keep));
      } else {
        assert [] + Retained(rest, keep) == Retained(rest, keep);
      }
    }
  }

  /** Without vision: the same messages, each without its images. */
  lemma {:induction false} SentWithoutVision(injected: seq<Message>, keptOlder: seq<Message>, recent: seq<Message>)
    requires AllText(injected)
    ensures FinalMessages(injected, keptOlder, recent, false) ==
            ImagesStripped(injected + StrippedOlder(keptOlder) + Survivors(recent))
  {
    var all := injected + StrippedOlder(keptOlder) + recent;
    var stripped := ImagesStripped(all);
    OlderHasNoIds(keptOlder);
    PlainIds(injected, StrippedOlder(keptOlder), recent);
    IdsWithImagesStripped(all, recent);
    forall m
      ensures Supported(stripped)(m) == Supported(all)(m) && Supported(all)(StripImages(m)) == Supported(all)(m)
    {
      SameSupport(all, recent, m);
      SameSupport(stripped, recent, m);
      StrippingImagesKeepsIds(m);
    }
    RetainedSame(stripped, Supported(stripped), Supported(all));
    RetainedImages(all, Supported(all));
    SentWithVision(injected, keptOlder, recent);
  }

  /** What is sent of `sent` to a model with or without vision. */
  ghost predicate SentAs(messages: seq<Message>, sent: seq<Message>, vision: bool) {
    if vision then messages == sent
    else
      && |messages| == |sent|
      && forall k :: 0 <= k < |sent| ==>
           && messages[k].role == sent[k].role
           && PartsOf(messages[k]) == WithoutImages(PartsOf(sent[k]))
           && forall p :: p in PartsOf(messages[k]) ==> !p.Image?
  }

  lemma {:induction false} SentIs(injected: seq<Message>, keptOlder: seq<Message>, recent: seq<Message>, vision: bool)
    requires AllText(injected)
    ensures SentAs(FinalMessages(injected, keptOlder, recent, vision),
                   injected + StrippedOlder(keptOlder) + Survivors(recent), vision)
  {
    var sent := injected + StrippedOlder(keptOlder) + Survivors(recent);
    if vision {
      SentWithVision(injected, keptOlder, recent);
    } else {
      SentWithoutVision(injected, keptOlder, recent);
      forall k | 0 <= k < |sent|
        ensures ImagesStripped(sent)[k].role == sent[k].role
        ensures PartsOf(ImagesStripped(sent)[k]) == WithoutImages(PartsOf(sent[k]))
        ensures forall p :: p in PartsOf(ImagesStripped(sent)[k]) ==> !p.Image?
      {
        StripImagesMeaning(sent[k]);
      }
    }
  }

  lemma UnmixedTail(all: seq<Message>, recent: seq<Message>)
    requires IdsInTail(all, recent)
    requires forall k :: 0 <= k < |recent| ==> !Mixed(recent[k])
    ensures forall k :: 0 <= k < |all| ==> !Mixed(all[k])
  {
    var n := |all| - |recent|;
    forall k | 0 <= k < |all| ensures !Mixed(all[k]) {
      assert IdsAsIn(all[k], recent, k - n);
    }
  }

  /** End to end: every tool result that is sent has its tool use in what is sent, if no recent message
      mixes the two. */
  lemma FinalListIsPaired(injected: seq<Message>, keptOlder: seq<Message>, recent: seq<Message>, vision: bool)
    requires AllText(injected)
    requires forall k :: 0 <= k < |recent| ==> !Mixed(recent[k])
    ensures NoOrphans(FinalMessages(injected, keptOlder, recent, vision))
  {
    AssembledIds(injected, keptOlder, recent, vision);
    var all := Assembled(injected, keptOlder, recent, vision);
    UnmixedTail(all, recent);
    UnmixedOnePassSuffices(all);
  }

  /** Strips, joins and cleans the parts of the list. */
  method AssembleMessages(injected: seq<Message>, keptOlder: seq<Message>, recent: seq<Message>, vision: bool)
    returns (messages: seq<Message>)
    ensures messages == FinalMessages(injected, keptOlder, recent, vision)
  {
    var stripped := StripToolMessagesFromOlder(keptOlder);
    var all := injected + stripped + recent;
    if !vision {
      all := ImagesStripped(all);
    }
    messages := RemoveOrphanedToolResults(all);
  }

  // ---------------------------------------------------------------------
  // The tokens of the final list
  // ---------------------------------------------------------------------

  lemma {:induction false} RetainedTokens(messages: seq<Message>, keep: Message -> bool)
    ensures TotalTokens(Retained(messages, keep)) <= TotalTokens(messages)
  {
    if messages != [] {
      RetainedTokens(messages[1..], keep);
      TotalTokensConcat(if keep(messages[0]) then [messages[0]] else [], Retained(messages[1..], keep));
    }
  }

  lemma {:induction false} PartsTokensCons(p: Part, parts: seq<Part>)
    ensures PartsTokens([p] + parts) == PartTokens(p) + PartsTokens(parts)
  {
    assert ([p] + parts)[1..] == parts;
  }

  lemma {:induction false} FewerPartsCostLess(parts: seq<Part>)
    ensures PartsTokens(WithoutToolParts(parts)) <= PartsTokens(parts)
    ensures PartsTokens(WithoutImages(parts)) <= PartsTokens(parts)
  {
    if parts != [] {
      var p, rest := parts[0], parts[1..];
      FewerPartsCostLess(rest);
      PartsTokensCons(p, WithoutToolParts(rest));
      PartsTokensCons(p, WithoutImages(rest));
      assert [] + WithoutToolParts(rest) == WithoutToolParts(rest) && [] + WithoutImages(rest) == WithoutImages(rest);
    }
  }

  lemma {:induction false} FlatteningKeepsTokens(role: Role, parts: seq<Part>)
    ensures MessageTokens(Message(role, Flattened(parts))) == PartsTokens(parts)
  {
    if |parts| == 1 {
      assert parts[1..] == [];
    }
  }

  lemma StrippingCostsLess(m: Message)
    ensures MessageTokens(StripTools(m)) <= MessageTokens(m) && MessageTokens(StripImages(m)) <= MessageTokens(m)
  {
    if m.content.Parts? {
      FewerPartsCostLess(m.content.parts);
      FlatteningKeepsTokens(m.role, WithoutToolParts(m.content.parts));
      FlatteningKeepsTokens(m.role, WithoutImages(m.content.parts));
    }
  }

  lemma {:induction false} TotalTokensCons(m: Message, messages: seq<Message>)
    ensures TotalTokens([m] + messages) == MessageTokens(m) + TotalTokens(messages)
  {
    assert ([m] + messages)[1..] == messages;
  }

  lemma {:induction false} StrippedOlderTokens(messages: seq<Message>)
    ensures TotalTokens(StrippedOlder(messages)) <= TotalTokens(messages)
  {
    if messages != [] {
      var rest := StrippedOlder(messages[1..]);
      StrippedOlderTokens(messages[1..]);
      StrippingCostsLess(messages[0]);
      TotalTokensCons(StripTools(messages[0]), rest);
      assert [] + rest == rest;
    }
  }

  lemma {:induction false} ImagesStrippedTokens(messages: seq<Message>)
    ensures TotalTokens(ImagesStripped(messages)) <= TotalTokens(messages)
  {
    if messages != [] {
      ImagesStrippedTokens(messages[1..]);
      StrippingCostsLess(messages[0]);
      assert ImagesStripped(messages) == [StripImages(messages[0])] + ImagesStripped(messages[1..]);
      TotalTokensCons(StripImages(messages[0]), ImagesStripped(messages[1..]));
    }
  }

  /** The final list costs at most what goes into it. */
  lemma {:induction false} FinalTokens(injected: seq<Message>, keptOlder: seq<Message>, recent: seq<Message>,
                                       vision: bool)
    ensures TotalTokens(FinalMessages(injected, keptOlder, recent, vision)) <=
            TotalTokens(injected) + TotalTokens(keptOlder) + TotalTokens(recent)
  {
    var all := injected + StrippedOlder(keptOlder) + recent;
    TotalTokensConcat(injected + StrippedOlder(keptOlder), recent);
    TotalTokensConcat(injected, StrippedOlder(keptOlder));
    StrippedOlderTokens(keptOlder);
    ImagesStrippedTokens(all);
    var assembled := Assembled(injected, keptOlder, recent, vision);
    RetainedTokens(assembled, Supported(assembled));
  }
}
