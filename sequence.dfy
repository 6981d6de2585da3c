/**
 * Sequence diagrams: the participants and messages of a clang-uml sequence
 * diagram, the recursive extraction of call and return messages from the
 * nested activity blocks, the parser object that keeps the last parsed
 * diagram, and the PlantUML generator.
 */
module SequenceParser {
  import opened Wrappers
  import Text
  import GraphModel

  /** A class, function or method that takes part in the diagram. */
  datatype Participant = Participant(
    id: string, name: string, kind: string,
    displayName: Option<string>, namespace: Option<string>)
  {
    /** `namespace::name` when the namespace is set and non-empty, the bare name otherwise. */
    function FullName(): string
    {
      if namespace.Some? && namespace.value != "" then namespace.value + "::" + name else name
    }

    /**
     * The full name ends with the short name, and differs from it exactly
     * when a non-empty namespace qualifies it.
     */
    lemma FullNameQualifies()
      ensures var r := FullName(); |name| <= |r| && r[|r| - |name|..] == name
      ensures FullName() == name <==> namespace.None? || namespace.value == ""
    {
    }
  }

  /** A call or return between two participants, named by their ids. */
  datatype Message = Message(
    fromId: string, toId: string, name: string, kind: string,
    scope: Option<string>, returnType: Option<string>,
    sourceLocation: Option<map<string, string>>)

  /**
   * One node of the `sequences` tree: its own fields (`None` where the key
   * is absent) and its child lists under `messages`, `if_blocks`,
   * `else_blocks`, `case_blocks` and `loop_blocks` (empty where the key is
   * absent, which the traversal treats alike).
   */
  datatype Item = Item(
    kind: Option<string>, fromId: Option<string>, toId: Option<string>,
    name: Option<string>, scope: Option<string>, returnType: Option<string>,
    sourceLocation: Option<map<string, string>>,
    messages: seq<Item>, ifBlocks: seq<Item>, elseBlocks: seq<Item>,
    caseBlocks: seq<Item>, loopBlocks: seq<Item>)

  /** Only nodes of type `call` or `return` stand for a message. */
  predicate IsMessage(item: Item)
  {
    item.kind == Some("call") || item.kind == Some("return")
  }

  function OrEmpty(o: Option<string>): string
  {
    if o.Some? then o.value else ""
  }

  /** The message of a call or return node; a missing endpoint id or name becomes "". */
  function MessageOf(item: Item): (m: Message)
    requires IsMessage(item)
    ensures m.kind == "call" || m.kind == "return"
    ensures item.fromId.None? ==> m.fromId == ""
    ensures item.toId.None? ==> m.toId == ""
    ensures item.name.None? ==> m.name == ""
  {
    Message(OrEmpty(item.fromId), OrEmpty(item.toId), OrEmpty(item.name), item.kind.value,
            item.scope, item.returnType, item.sourceLocation)
  }

  /** The messages appended by the recursive traversal of `item`, in order. */
  function Extract(item: Item): seq<Message>
    decreases item
  {
    (if IsMessage(item) then [MessageOf(item)] else [])
    + ExtractAll(item.messages) + ExtractAll(item.ifBlocks) + ExtractAll(item.elseBlocks)
    + ExtractAll(item.caseBlocks) + ExtractAll(item.loopBlocks)
  }

  function ExtractAll(items: seq<Item>): seq<Message>
    decreases items
  {
    if items == [] then [] else ExtractAll(items[..|items| - 1]) + Extract(items[|items| - 1])
  }

  /** Every node of the tree in pre-order: the node itself, then its child lists in key order. */
  function Nodes(item: Item): (r: seq<Item>)
    ensures r != [] && r[0] == item
    decreases item
  {
    [item] + NodesAll(item.messages) + NodesAll(item.ifBlocks) + NodesAll(item.elseBlocks)
    + NodesAll(item.caseBlocks) + NodesAll(item.loopBlocks)
  }

  function NodesAll(items: seq<Item>): seq<Item>
    decreases items
  {
    if items == [] then [] else NodesAll(items[..|items| - 1]) + Nodes(items[|items| - 1])
  }

  /** The messages of the call and return nodes among `nodes`, one per such node, in order. */
  function MessagesOf(nodes: seq<Item>): seq<Message>
  {
    if nodes == [] then []
    else
      var init, last := nodes[..|nodes| - 1], nodes[|nodes| - 1];
      MessagesOf(init) + (if IsMessage(last) then [MessageOf(last)] else [])
  }

  /** One message per call or return node, and no message from any other node. */
  lemma {:induction false} MessagesOfSelect(nodes: seq<Item>)
    ensures |MessagesOf(nodes)| == |GraphModel.Filter(nodes, IsMessage)|
    ensures forall m :: m in MessagesOf(nodes) <==> exists n :: n in nodes && IsMessage(n) && m == MessageOf(n)
  {
    if nodes != [] {
      var init, last := nodes[..|nodes| - 1], nodes[|nodes| - 1];
      assert forall n :: n in nodes <==> n in init || n == last;
      MessagesOfSelect(init);
    }
  }

  lemma {:induction false} MessagesOfAppend(a: seq<Item>, b: seq<Item>)
    ensures MessagesOf(a + b) == MessagesOf(a) + MessagesOf(b)
    decreases |b|
  {
    if b == [] {
      assert a + b == a;
    } else {
      var init, last := b[..|b| - 1], b[|b| - 1];
      var tail := if IsMessage(last) then [MessageOf(last)] else [];
      assert (a + b)[..|a + b| - 1] == a + init && (a + b)[|a + b| - 1] == last;
      assert MessagesOf(a + b) == MessagesOf(a + init) + tail;
      MessagesOfAppend(a, init);
      assert MessagesOf(b) == MessagesOf(init) + tail;
      AppendAssoc(MessagesOf(a), MessagesOf(init), tail);
    }
  }

  /** The traversal selects exactly the call and return nodes of the pre-order listing. */
  lemma {:induction false} ExtractIsPreorder(item: Item)
    ensures Extract(item) == MessagesOf(Nodes(item))
    decreases item
  {
    ExtractAllIsPreorder(item.messages);
    ExtractAllIsPreorder(item.ifBlocks);
    ExtractAllIsPreorder(item.elseBlocks);
    ExtractAllIsPreorder(item.caseBlocks);
    ExtractAllIsPreorder(item.loopBlocks);
    var own := if IsMessage(item) then [MessageOf(item)] else [];
    var n0 := [item];
    var n1 := n0 + NodesAll(item.messages);
    var n2 := n1 + NodesAll(item.ifBlocks);
    var n3 := n2 + NodesAll(item.elseBlocks);
    var n4 := n3 + NodesAll(item.caseBlocks);
    assert n0[..0] == [];
    assert MessagesOf(n0) == own;
    MessagesOfAppend(n0, NodesAll(item.messages));
    MessagesOfAppend(n1, NodesAll(item.ifBlocks));
    MessagesOfAppend(n2, NodesAll(item.elseBlocks));
    MessagesOfAppend(n3, NodesAll(item.caseBlocks));
    MessagesOfAppend(n4, NodesAll(item.loopBlocks));
    assert Nodes(item) == n4 + NodesAll(item.loopBlocks);
  }

  lemma {:induction false} ExtractAllIsPreorder(items: seq<Item>)
    ensures ExtractAll(items) == MessagesOf(NodesAll(items))
    decreases items
  {
    if items != [] {
      var init, last := items[..|items| - 1], items[|items| - 1];
      ExtractAllIsPreorder(init);
      ExtractIsPreorder(last);
      MessagesOfAppend(NodesAll(init), Nodes(last));
    }
  }

  /**
   * Extraction from one node yields one message per call or return node of
   * its tree, each built from such a node, and the node's own message first.
   */
  lemma ExtractCounts(item: Item)
    ensures |Extract(item)| == |GraphModel.Filter(Nodes(item), IsMessage)|
    ensures forall m :: m in Extract(item) <==> exists n :: n in Nodes(item) && IsMessage(n) && m == MessageOf(n)
    ensures IsMessage(item) ==> Extract(item)[0] == MessageOf(item)
  {
    ExtractIsPreorder(item);
    MessagesOfSelect(Nodes(item));
  }

  /** The same for a list of top-level sequences. */
  lemma ExtractAllCounts(items: seq<Item>)
    ensures |ExtractAll(items)| == |GraphModel.Filter(NodesAll(items), IsMessage)|
    ensures forall m :: m in ExtractAll(items) <==> exists n :: n in NodesAll(items) && IsMessage(n) && m == MessageOf(n)
  {
    ExtractAllIsPreorder(items);
    MessagesOfSelect(NodesAll(items));
  }

  /** A participant entry as it appears in the input; `None` where the key is absent. */
  datatype RawParticipant = RawParticipant(
    id: Option<string>, name: Option<string>, kind: Option<string>,
    displayName: Option<string>, namespace: Option<string>)

  /** `_parse_participant`: id and name default to "", the type to "class". */
  function ParseParticipant(raw: RawParticipant): (p: Participant)
    ensures raw.id.None? ==> p.id == ""
    ensures raw.name.None? ==> p.name == ""
    ensures raw.kind.None? ==> p.kind == "class"
    ensures p.displayName == raw.displayName && p.namespace == raw.namespace
  {
    Participant(OrEmpty(raw.id), OrEmpty(raw.name),
                if raw.kind.Some? then raw.kind.value else "class",
                raw.displayName, raw.namespace)
  }

  function ParseParticipants(raws: seq<RawParticipant>): (ps: seq<Participant>)
    ensures |ps| == |raws|
  {
    seq(|raws|, i requires 0 <= i < |raws| => ParseParticipant(raws[i]))
  }

  /** The input as a whole; an absent list is empty and absent metadata is the empty map. */
  datatype RawDiagram = RawDiagram(
    participants: seq<RawParticipant>, sequences: seq<Item>,
    diagramType: Option<string>, metadata: map<string, string>, startFrom: Option<string>)

  /** Some participant of `ps` has id `id`. */
  predicate HasId(ps: seq<Participant>, id: string)
  {
    exists i :: 0 <= i < |ps| && ps[i].id == id
  }

  /** The key order of the dict built by assigning `ps` one after another: first occurrences. */
  function KeyOrder(ps: seq<Participant>): (r: seq<string>)
    ensures GraphModel.Distinct(r)
    ensures forall id :: id in r <==> HasId(ps, id)
  {
    if ps == [] then []
    else
      var init, last := ps[..|ps| - 1], ps[|ps| - 1];
      var order := KeyOrder(init);
      assert forall id :: HasId(ps, id) <==> HasId(init, id) || id == last.id by {
        forall id | HasId(ps, id) && id != last.id ensures HasId(init, id) {
          var i :| 0 <= i < |ps| && ps[i].id == id;
          assert init[i].id == id;
        }
        forall id | HasId(init, id) ensures HasId(ps, id) {
          var i :| 0 <= i < |init| && init[i].id == id;
          assert ps[i].id == id;
        }
      }
      if last.id in order then order
      else
        GraphModel.DistinctAppend(order, last.id);
        order + [last.id]
  }

  /** Re-assigning keys already present does not reorder a dict. */
  lemma {:induction false} KeyOrderOfDistinct(ps: seq<Participant>)
    requires forall i, j :: 0 <= i < j < |ps| ==> ps[i].id != ps[j].id
    ensures KeyOrder(ps) == seq(|ps|, i requires 0 <= i < |ps| => ps[i].id)
  {
    if ps != [] {
      var init := ps[..|ps| - 1];
      KeyOrderOfDistinct(init);
      assert !HasId(init, ps[|ps| - 1].id);
    }
  }

  /** The dict built by assigning `ps[i].id := ps[i]` one after another. */
  function Table(ps: seq<Participant>): (r: map<string, Participant>)
    ensures forall id :: id in r <==> HasId(ps, id)
    ensures forall id :: id in r ==> r[id].id == id
  {
    if ps == [] then map[]
    else
      var init, last := ps[..|ps| - 1], ps[|ps| - 1];
      assert forall id :: HasId(ps, id) <==> HasId(init, id) || id == last.id by {
        forall id | HasId(ps, id) && id != last.id ensures HasId(init, id) {
          var i :| 0 <= i < |ps| && ps[i].id == id;
          assert init[i].id == id;
        }
        forall id | HasId(init, id) ensures HasId(ps, id) {
          var i :| 0 <= i < |init| && init[i].id == id;
          assert ps[i].id == id;
        }
      }
      Table(init)[last.id := last]
  }

  /** `ps[i]` is the last participant of `ps` with id `id`. */
  predicate LastWithId(ps: seq<Participant>, i: int, id: string)
  {
    0 <= i < |ps| && ps[i].id == id && forall j :: i < j < |ps| ==> ps[j].id != id
  }

  /** A later participant with the same id overwrites the earlier one. */
  lemma {:induction false} TableLastWins(ps: seq<Participant>, id: string)
    requires id in Table(ps)
    ensures exists i :: LastWithId(ps, i, id) && Table(ps)[id] == ps[i]
  {
    assert ps != [];
    var init, last := ps[..|ps| - 1], ps[|ps| - 1];
    assert Table(ps) == Table(init)[last.id := last];
    if last.id == id {
      assert LastWithId(ps, |ps| - 1, id);
    } else {
      assert id in Table(init) && Table(ps)[id] == Table(init)[id];
      TableLastWins(init, id);
      var i :| LastWithId(init, i, id) && Table(init)[id] == init[i];
      assert ps[i] == init[i];
      forall j | i < j < |ps|
        ensures ps[j].id != id
      {
        if j < |init| {
          assert ps[j] == init[j];
        }
      }
      assert LastWithId(ps, i, id);
    }
  }

  /** The stored diagram; `order` is the key order of the participants dict. */
  datatype SequenceDiagramData = SequenceDiagramData(
    name: string, diagramType: string,
    order: seq<string>, participants: map<string, Participant>,
    messages: seq<Message>, metadata: map<string, string>, startFrom: Option<string>)
  {
    ghost predicate Valid()
    {
      && GraphModel.Distinct(order)
      && (forall id :: id in order <==> id in participants)
      && (forall id :: id in participants ==> participants[id].id == id)
    }

    /** `participant_count`: the number of distinct participant ids. */
    function ParticipantCount(): nat
    {
      |participants|
    }

    /** `participant_count` is the number of distinct participant ids. */
    lemma ParticipantCountIsOrder()
      requires Valid()
      ensures ParticipantCount() == |order|
    {
      GraphModel.DistinctCardinality(order);
      assert participants.Keys == set x | x in order;
    }

    function MessageCount(): nat
    {
      |messages|
    }

    /** A participant answers to its short name and to its full name. */
    predicate Named(p: Participant, name: string)
    {
      p.name == name || p.FullName() == name
    }

    /** `order[j]` is the first participant from position `i` on answering to `name`. */
    ghost predicate FirstNamedFrom(i: int, j: int, name: string)
      requires Valid()
    {
      && 0 <= i <= j < |order|
      && Named(participants[order[j]], name)
      && forall k :: i <= k < j ==> !Named(participants[order[k]], name)
    }

    /** Nobody in the diagram answers to `name`. */
    ghost predicate NobodyNamed(name: string)
    {
      forall id :: id in participants ==> !Named(participants[id], name)
    }


    /** Nobody from position `i` on, in dict order, answers to `name`. */
    ghost predicate NoneNamedFrom(i: int, name: string)
      requires Valid()
    {
      forall j :: 0 <= i <= j < |order| ==> !Named(participants[order[j]], name)
    }

    /** `p` is the first participant from position `i` on, in dict order, answering to `name`. */
    ghost predicate FoundFrom(i: int, p: Participant, name: string)
      requires Valid()
    {
      exists j :: FirstNamedFrom(i, j, name) && p == participants[order[j]]
    }

    /** The first participant from position `i` on, in dict order, answering to `name`. */
    function FindNamed(name: string, i: nat): Option<Participant>
      requires Valid() && i <= |order|
      decreases |order| - i
    {
      if i == |order| then None
      else if Named(participants[order[i]], name) then Some(participants[order[i]])
      else FindNamed(name, i + 1)
    }

    /** The search from `i` finds nobody exactly when nobody from `i` on answers, and otherwise the first who does. */
    lemma {:induction false} FindNamedFirst(name: string, i: nat)
      requires Valid() && i <= |order|
      ensures FindNamed(name, i).None? ==> NoneNamedFrom(i, name)
      ensures FindNamed(name, i).Some? ==> FoundFrom(i, FindNamed(name, i).value, name)
      decreases |order| - i
    {
      if i < |order| {
        if Named(participants[order[i]], name) {
          assert FirstNamedFrom(i, i, name);
        } else {
          FindNamedFirst(name, i + 1);
          var r := FindNamed(name, i + 1);
          if r.Some? {
            var j :| FirstNamedFrom(i + 1, j, name) && r.value == participants[order[j]];
            assert FirstNamedFrom(i, j, name);
          }
        }
      }
    }

    /** `get_participant_by_name`: the first match in dict order, `None` when nobody answers. */
    function GetParticipantByName(name: string): (r: Option<Participant>)
      requires Valid()
      ensures r.None? <==> NobodyNamed(name)
      ensures r.Some? ==> FoundFrom(0, r.value, name)
    {
      var r := FindNamed(name, 0);
      FindNamedFirst(name, 0);
      assert r.None? ==> NobodyNamed(name) by {
        if r.None? {
          assert NoneNamedFrom(0, name);
          forall id | id in participants ensures !Named(participants[id], name) {
            var j :| 0 <= j < |order| && order[j] == id;
          }
        }
      }
      assert r.Some? ==> FoundFrom(0, r.value, name) && !NobodyNamed(name) by {
        if r.Some? {
          var j :| FirstNamedFrom(0, j, name) && r.value == participants[order[j]];
          assert order[j] in participants;
        }
      }
      r
    }

    /** `get_calls_from`. */
    function GetCallsFrom(participantId: string): (r: seq<Message>)
      ensures forall m :: m in r <==> m in messages && m.fromId == participantId
    {
      SentBy(messages, participantId)
    }

    /** `get_calls_to`. */
    function GetCallsTo(participantId: string): (r: seq<Message>)
      ensures forall m :: m in r <==> m in messages && m.toId == participantId
    {
      ReceivedBy(messages, participantId)
    }
  }

  /** The messages of `ms` sent by `id`, in their order. */
  function SentBy(ms: seq<Message>, id: string): (r: seq<Message>)
    ensures forall m :: m in r <==> m in ms && m.fromId == id
    ensures |r| <= |ms|
  {
    if ms == [] then []
    else
      var init, last := ms[..|ms| - 1], ms[|ms| - 1];
      assert forall m :: m in ms <==> m in init || m == last;
      SentBy(init, id) + (if last.fromId == id then [last] else [])
  }

  /** The messages of `ms` received by `id`, in their order. */
  function ReceivedBy(ms: seq<Message>, id: string): (r: seq<Message>)
    ensures forall m :: m in r <==> m in ms && m.toId == id
    ensures |r| <= |ms|
  {
    if ms == [] then []
    else
      var init, last := ms[..|ms| - 1], ms[|ms| - 1];
      assert forall m :: m in ms <==> m in init || m == last;
      ReceivedBy(init, id) + (if last.toId == id then [last] else [])
  }

  /** The selection keeps the order: selecting from a concatenation concatenates the selections. */
  lemma {:induction false} SentByConcat(a: seq<Message>, b: seq<Message>, id: string)
    ensures SentBy(a + b, id) == SentBy(a, id) + SentBy(b, id)
    decreases |b|
  {
    if b == [] {
      assert a + b == a;
    } else {
      var init, last := b[..|b| - 1], b[|b| - 1];
      var tail := if last.fromId == id then [last] else [];
      assert (a + b)[..|a + b| - 1] == a + init && (a + b)[|a + b| - 1] == last;
      assert SentBy(a + b, id) == SentBy(a + init, id) + tail;
      SentByConcat(a, init, id);
      assert SentBy(b, id) == SentBy(init, id) + tail;
      AppendAssoc(SentBy(a, id), SentBy(init, id), tail);
    }
  }

  lemma {:induction false} ReceivedByConcat(a: seq<Message>, b: seq<Message>, id: string)
    ensures ReceivedBy(a + b, id) == ReceivedBy(a, id) + ReceivedBy(b, id)
    decreases |b|
  {
    if b == [] {
      assert a + b == a;
    } else {
      var init, last := b[..|b| - 1], b[|b| - 1];
      var tail := if last.toId == id then [last] else [];
      assert (a + b)[..|a + b| - 1] == a + init && (a + b)[|a + b| - 1] == last;
      assert ReceivedBy(a + b, id) == ReceivedBy(a + init, id) + tail;
      ReceivedByConcat(a, init, id);
      assert ReceivedBy(b, id) == ReceivedBy(init, id) + tail;
      AppendAssoc(ReceivedBy(a, id), ReceivedBy(init, id), tail);
    }
  }

  lemma AppendAssoc<T>(a: seq<T>, b: seq<T>, c: seq<T>)
    ensures a + b + c == a + (b + c)
  {
  }

  /** The entries of `get_statistics`. */
  datatype Statistics = Statistics(
    diagramName: string, diagramType: string,
    totalParticipants: nat, totalMessages: nat, startFrom: Option<string>,
    clangUmlVersion: Option<string>, llvmVersion: Option<string>)

  function Lookup(m: map<string, string>, key: string): Option<string>
  {
    if key in m then Some(m[key]) else None
  }

  /** The parser, holding the last diagram it parsed. */
  class Parser {
    var data: Option<SequenceDiagramData>

    constructor()
      ensures data == None && GetStatistics() == None
    {
      data := None;
    }

    /**
     * `parse_dict`: participants keyed by id (a later entry with the same id
     * replaces the earlier one but keeps its position), the messages of the
     * top-level sequences one after another, and the defaults for absent keys.
     */
    method ParseDict(raw: RawDiagram, name: string) returns (d: SequenceDiagramData)
      modifies this
      ensures data == Some(d) && d.Valid()
      ensures d.name == name
      ensures d.diagramType == if raw.diagramType.Some? then raw.diagramType.value else "sequence"
      ensures d.order == KeyOrder(ParseParticipants(raw.participants))
      ensures d.participants == Table(ParseParticipants(raw.participants))
      ensures d.messages == ExtractAll(raw.sequences)
      ensures d.metadata == raw.metadata && d.startFrom == raw.startFrom
      ensures GetStatistics().Some?
      ensures GetStatistics().value.totalMessages == |GraphModel.Filter(NodesAll(raw.sequences), IsMessage)|
      ensures GetStatistics().value.totalParticipants == |d.order|
    {
      var order, table := IndexParticipants(raw.participants);
      var messages := CollectMessages(raw.sequences);
      d := SequenceDiagramData(
        name, if raw.diagramType.Some? then raw.diagramType.value else "sequence",
        order, table, messages, raw.metadata, raw.startFrom);
      data := Some(d);
      ExtractAllCounts(raw.sequences);
      d.ParticipantCountIsOrder();
    }

    /** The participant loop of `parse_dict`: the dict keyed by id and its key order. */
    method IndexParticipants(raws: seq<RawParticipant>) returns (order: seq<string>, table: map<string, Participant>)
      ensures order == KeyOrder(ParseParticipants(raws))
      ensures table == Table(ParseParticipants(raws))
    {
      ghost var ps := ParseParticipants(raws);
      order := [];
      table := map[];
      for i := 0 to |raws|
        invariant order == KeyOrder(ps[..i])
        invariant table == Table(ps[..i])
      {
        var p := ParseParticipant(raws[i]);
        assert ps[..i + 1][..i] == ps[..i] && ps[..i + 1][i] == p;
        if p.id !in table {
          order := order + [p.id];
        }
        table := table[p.id := p];
      }
      assert ps[..|raws|] == ps;
    }

    /** The sequence loop of `parse_dict`: the messages of every top-level sequence, in order. */
    method CollectMessages(sequences: seq<Item>) returns (messages: seq<Message>)
      ensures messages == ExtractAll(sequences)
    {
      messages := [];
      for i := 0 to |sequences|
        invariant messages == ExtractAll(sequences[..i])
      {
        var part := ExtractMessages(sequences[i], []);
        assert sequences[..i + 1][..i] == sequences[..i];
        messages := messages + part;
      }
      assert sequences[..|sequences|] == sequences;
    }

    /** `_extract_messages`: appends the messages under `item` to `messages`, in pre-order. */
    method ExtractMessages(item: Item, messages: seq<Message>) returns (r: seq<Message>)
      ensures r == messages + Extract(item)
      decreases item
    {
      r := messages;
      if IsMessage(item) {
        r := r + [MessageOf(item)];
      }
      ghost var found := if IsMessage(item) then [MessageOf(item)] else [];
      r := ExtractBlock(item.messages, r);
      AppendAssoc(messages, found, ExtractAll(item.messages));
      found := found + ExtractAll(item.messages);
      r := ExtractBlock(item.ifBlocks, r);
      AppendAssoc(messages, found, ExtractAll(item.ifBlocks));
      found := found + ExtractAll(item.ifBlocks);
      r := ExtractBlock(item.elseBlocks, r);
      AppendAssoc(messages, found, ExtractAll(item.elseBlocks));
      found := found + ExtractAll(item.elseBlocks);
      r := ExtractBlock(item.caseBlocks, r);
      AppendAssoc(messages, found, ExtractAll(item.caseBlocks));
      found := found + ExtractAll(item.caseBlocks);
      r := ExtractBlock(item.loopBlocks, r);
      AppendAssoc(messages, found, ExtractAll(item.loopBlocks));
    }

    /** The loop of `_extract_messages` over one child list. */
    method ExtractBlock(items: seq<Item>, messages: seq<Message>) returns (r: seq<Message>)
      ensures r == messages + ExtractAll(items)
      decreases items
    {
      r := messages;
      for i := 0 to |items|
        invariant r == messages + ExtractAll(items[..i])
      {
        assert items[..i + 1][..i] == items[..i];
        r := ExtractMessages(items[i], r);
      }
      assert items[..|items|] == items;
    }

    /** `get_statistics`: nothing before a diagram was parsed, the counts after. */
    function GetStatistics(): (r: Option<Statistics>)
      reads this
      ensures r.None? <==> data.None?
      ensures r.Some? ==> r.value.totalMessages == |data.value.messages|
      ensures r.Some? ==> r.value.totalParticipants == |data.value.participants|
    {
      if data.None? then None
      else
        var d := data.value;
        Some(Statistics(d.name, d.diagramType, d.ParticipantCount(), d.MessageCount(), d.startFrom,
                        Lookup(d.metadata, "clang_uml_version"), Lookup(d.metadata, "llvm_version")))
    }
  }

  /** `_get_alias`: "P_" followed by at most the first 16 characters of the id. */
  function Alias(id: string): (r: string)
    ensures |r| == 2 + if |id| < 16 then |id| else 16
    ensures r[..2] == "P_" && r[2..] <= id
  {
    "P_" + Text.Take(id, 16)
  }

  /** Ids of at most 16 characters get distinct aliases. */
  lemma AliasInjective(a: string, b: string)
    requires |a| <= 16 && |b| <= 16 && Alias(a) == Alias(b)
    ensures a == b
  {
    assert a == Alias(a)[2..];
    assert b == Alias(b)[2..];
  }

  /** Longer ids that agree on their first 16 characters share an alias. */
  lemma AliasTruncates(a: string, b: string)
    requires 16 <= |a| && 16 <= |b| && a[..16] == b[..16]
    ensures Alias(a) == Alias(b)
  {
  }

  /** `participant_filter` applies only when it is given and non-empty. */
  predicate Filtering(filter: Option<set<string>>)
  {
    filter.Some? && filter.value != {}
  }

  predicate Declared(filter: Option<set<string>>, id: string)
  {
    !Filtering(filter) || id in filter.value
  }

  /** A message is drawn when no filter applies or both its ends pass it. */
  predicate Drawn(filter: Option<set<string>>, m: Message)
  {
    !Filtering(filter) || (m.fromId in filter.value && m.toId in filter.value)
  }

  /** `display_name or name`. */
  function Label(p: Participant): string
  {
    if p.displayName.Some? && p.displayName.value != "" then p.displayName.value else p.name
  }

  function DeclarationLine(p: Participant): string
  {
    "participant \"" + Label(p) + "\" as " + Alias(p.id)
  }

  /** A return is drawn dashed from the receiver back to the sender, anything else solid from sender to receiver. */
  function MessageLine(m: Message): string
  {
    if m.kind == "return" then Alias(m.toId) + " --> " + Alias(m.fromId) + ": " + m.name
    else Alias(m.fromId) + " -> " + Alias(m.toId) + ": " + m.name
  }

  /** The arrow starts at the alias of its tail participant and ends with the message name. */
  lemma MessageLineShape(m: Message)
    ensures Alias(if m.kind == "return" then m.toId else m.fromId) <= MessageLine(m)
    ensures var r, tail := MessageLine(m), ": " + m.name; |tail| <= |r| && r[|r| - |tail|..] == tail
  {
    var returning := m.kind == "return";
    var first := Alias(if returning then m.toId else m.fromId);
    var arrow := if returning then " --> " else " -> ";
    var second := Alias(if returning then m.fromId else m.toId);
    var front, tail := first + arrow + second, ": " + m.name;
    AppendAssoc(front, ": ", m.name);
    assert MessageLine(m) == front + tail;
    AppendAssoc(first, arrow, second);
    AppendAssoc(first, arrow + second, tail);
    assert MessageLine(m) == first + (arrow + second + tail);
    assert (front + tail)[|front|..] == tail;
  }

  /** One declaration per declared participant id, in dict order. */
  function DeclarationLines(participants: map<string, Participant>, ids: seq<string>,
                            filter: Option<set<string>>): (r: seq<string>)
    requires forall id :: id in ids ==> id in participants
    ensures |r| <= |ids|
    ensures !Filtering(filter) ==> |r| == |ids|
  {
    if ids == [] then []
    else
      var init, last := ids[..|ids| - 1], ids[|ids| - 1];
      DeclarationLines(participants, init, filter)
      + (if Declared(filter, last) then [DeclarationLine(participants[last])] else [])
  }

  /** The declarations are exactly those of the participants that pass the filter. */
  lemma {:induction false} DeclarationLinesSelect(participants: map<string, Participant>, ids: seq<string>,
                                                  filter: Option<set<string>>)
    requires forall id :: id in ids ==> id in participants
    ensures forall l :: l in DeclarationLines(participants, ids, filter) <==>
      exists id :: id in ids && Declared(filter, id) && l == DeclarationLine(participants[id])
  {
    if ids != [] {
      var init, last := ids[..|ids| - 1], ids[|ids| - 1];
      assert forall id :: id in ids <==> id in init || id == last;
      DeclarationLinesSelect(participants, init, filter);
    }
  }

  /** One line per drawn message, in message order. */
  function MessageLines(ms: seq<Message>, filter: Option<set<string>>): (r: seq<string>)
    ensures |r| <= |ms|
    ensures !Filtering(filter) ==> |r| == |ms|
  {
    if ms == [] then []
    else
      var init, last := ms[..|ms| - 1], ms[|ms| - 1];
      MessageLines(init, filter) + (if Drawn(filter, last) then [MessageLine(last)] else [])
  }

  /** The message lines are exactly those of the messages whose both ends pass the filter. */
  lemma {:induction false} MessageLinesSelect(ms: seq<Message>, filter: Option<set<string>>)
    ensures forall l :: l in MessageLines(ms, filter) <==>
      exists m :: m in ms && Drawn(filter, m) && l == MessageLine(m)
  {
    if ms != [] {
      var init, last := ms[..|ms| - 1], ms[|ms| - 1];
      assert forall m :: m in ms <==> m in init || m == last;
      MessageLinesSelect(init, filter);
    }
  }

  function TitleLines(title: Option<string>): seq<string>
  {
    if title.Some? && title.value != "" then ["title " + title.value] else []
  }

  /** The lines of the generated PlantUML text. */
  function PumlLines(data: SequenceDiagramData, filter: Option<set<string>>, title: Option<string>): seq<string>
    requires data.Valid()
  {
    ["@startuml"] + TitleLines(title) + [""]
    + DeclarationLines(data.participants, data.order, filter) + [""]
    + MessageLines(data.messages, filter)
    + ["", "'Generated by uml_processor", "@enduml"]
  }

  /**
   * The text opens with `@startuml` and closes with `@enduml`, and between
   * the fixed lines holds the optional title, one declaration per declared
   * participant and one line per drawn message; without a filter every
   * participant and every message appears.
   */
  lemma PumlLayout(data: SequenceDiagramData, filter: Option<set<string>>, title: Option<string>)
    requires data.Valid()
    ensures var text := Text.Join(PumlLines(data, filter, title), "\n");
      && "@startuml" <= text
      && |"@enduml"| <= |text| && text[|text| - |"@enduml"|..] == "@enduml"
    ensures |PumlLines(data, filter, title)|
      == 6 + |TitleLines(title)| + |DeclarationLines(data.participants, data.order, filter)|
        + |MessageLines(data.messages, filter)|
    ensures !Filtering(filter) ==>
      |PumlLines(data, filter, title)| == 6 + |TitleLines(title)| + |data.order| + |data.messages|
  {
    var lines := PumlLines(data, filter, title);
    Text.JoinBounds(lines, "\n");
  }

  /** The generator, bound to one parsed diagram. */
  class Generator {
    const data: SequenceDiagramData

    constructor(diagramData: SequenceDiagramData)
      ensures data == diagramData
    {
      data := diagramData;
    }

    /** `generate_puml`; `max_depth` is accepted and ignored, as in the source. */
    method GeneratePuml(participantFilter: Option<set<string>>, title: Option<string>, maxDepth: Option<int>)
      returns (text: string)
      requires data.Valid()
      ensures text == Text.Join(PumlLines(data, participantFilter, title), "\n")
    {
      var lines := ["@startuml"];
      if title.Some? && title.value != "" {
        lines := lines + ["title " + title.value];
      }
      lines := lines + [""];
      assert lines == ["@startuml"] + TitleLines(title) + [""];
      lines := DeclareParticipants(lines, participantFilter);
      lines := lines + [""];
      lines := DrawMessages(lines, participantFilter);
      lines := lines + ["", "'Generated by uml_processor", "@enduml"];
      text := Text.Join(lines, "\n");
    }

    /** The participant loop of `generate_puml`: appends one declaration per declared participant. */
    method DeclareParticipants(lines: seq<string>, participantFilter: Option<set<string>>) returns (r: seq<string>)
      requires forall id :: id in data.order ==> id in data.participants
      ensures r == lines + DeclarationLines(data.participants, data.order, participantFilter)
    {
      r := lines;
      for i := 0 to |data.order|
        invariant r == lines + DeclarationLines(data.participants, data.order[..i], participantFilter)
      {
        var id := data.order[i];
        ghost var done := DeclarationLines(data.participants, data.order[..i], participantFilter);
        ghost var added := if Declared(participantFilter, id) then [DeclarationLine(data.participants[id])] else [];
        assert data.order[..i + 1][..i] == data.order[..i];
        assert DeclarationLines(data.participants, data.order[..i + 1], participantFilter) == done + added;
        if Declared(participantFilter, id) {
          r := r + [DeclarationLine(data.participants[id])];
        }
        AppendAssoc(lines, done, added);
      }
      assert data.order[..|data.order|] == data.order;
    }

    /** The message loop of `generate_puml`: appends one arrow per drawn message. */
    method DrawMessages(lines: seq<string>, participantFilter: Option<set<string>>) returns (r: seq<string>)
      ensures r == lines + MessageLines(data.messages, participantFilter)
    {
      r := lines;
      for i := 0 to |data.messages|
        invariant r == lines + MessageLines(data.messages[..i], participantFilter)
      {
        var m := data.messages[i];
        ghost var done := MessageLines(data.messages[..i], participantFilter);
        ghost var added := if Drawn(participantFilter, m) then [MessageLine(m)] else [];
        assert data.messages[..i + 1][..i] == data.messages[..i];
        assert MessageLines(data.messages[..i + 1], participantFilter) == done + added;
        if Drawn(participantFilter, m) {
          r := r + [MessageLine(m)];
        }
        AppendAssoc(lines, done, added);
      }
      assert data.messages[..|data.messages|] == data.messages;
    }
  }
}
