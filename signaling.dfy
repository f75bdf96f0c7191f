/** The signaling relay: a server that groups connections by topic name and
    forwards `publish` messages, verbatim, to the other connections of a topic.

    Connections are ids; the global `topics` map (topic to the set of its
    connections) and every connection's `subscribedTopics` set are fields of
    one `Relay` object; `send` appends to an outbox. The HTTP server, the
    WebSocket server and `JSON.parse` are outside the model: a handler receives
    the raw text together with its parsed form. */
module Signaling {
  import opened Records

  type ConnId = nat
  type Topic = string
  /** A message as received, forwarded byte for byte by `publish`. */
  type Payload = string
  /** The `topics` map. */
  type Topics = map<Topic, set<ConnId>>
  /** Every live connection's `subscribedTopics`. */
  type Subscriptions = map<ConnId, set<Topic>>

  /** `conn.send(data)`. */
  datatype Send = Send(to: ConnId, data: Payload)

  /** `JSON.stringify({ type: 'pong' })`. */
  const PongText: Payload := "{\"type\":\"pong\"}"

  // ---- Messages --------------------------------------------------------------------------

  /** The `type` field, as the `switch` distinguishes it. */
  datatype Kind = SubscribeKind | UnsubscribeKind | PublishKind | PingKind | OtherKind

  /** The `topics` field as `messageTopics || []` sees it: falsy (absent, null,
      false, 0, ""), an array of topic names, or some other truthy value. */
  datatype TopicsField = Falsy | Listed(names: seq<Topic>) | NotAList

  /** The result of `JSON.parse(message)`. */
  datatype Parsed =
    | Unparseable                 // JSON.parse threw
    | NullDocument                // the text `null`
    | Document(kind: Kind, topicsField: TopicsField, topic: Value)

  /** What the relay does with a message. */
  datatype Command =
    | Subscribe(names: seq<Topic>)
    | Unsubscribe(names: seq<Topic>)
    | Publish(topic: Value)
    | Ping
    | Ignore

  /** Whether the message handler runs a command or throws. */
  datatype Reaction = Runs(command: Command) | Throws

  /** `messageTopics || []` for a field that is not a non-array truthy value. */
  function Names(field: TopicsField): seq<Topic>
    requires !field.NotAList?
  {
    if field.Falsy? then [] else field.names
  }

  /** The message handler as written: destructuring `null` and calling
      `forEach` on a truthy non-array both throw, and nothing catches the error. */
  function HandleAsWritten(p: Parsed): (r: Reaction)
    ensures r.Throws? <==>
      p.NullDocument? ||
      (p.Document? && (p.kind.SubscribeKind? || p.kind.UnsubscribeKind?) && p.topicsField.NotAList?)
    ensures r.Runs? && r.command.Ignore? <==>
      p.Unparseable? || (p.Document? && p.kind.OtherKind?)
  {
    match p
    case Unparseable => Runs(Ignore)
    case NullDocument => Throws
    case Document(kind, field, topic) =>
      match kind
      case SubscribeKind => if field.NotAList? then Throws else Runs(Subscribe(Names(field)))
      case UnsubscribeKind => if field.NotAList? then Throws else Runs(Unsubscribe(Names(field)))
      case PublishKind => Runs(Publish(topic))
      case PingKind => Runs(Ping)
      case OtherKind => Runs(Ignore)
  }

  /** The two inputs that make the handler as written throw. */
  lemma HandlerThrowsOnMalformedInput()
    ensures HandleAsWritten(NullDocument) == Throws
    ensures HandleAsWritten(Document(SubscribeKind, NotAList, Undefined)) == Throws
    ensures HandleAsWritten(Document(UnsubscribeKind, NotAList, Undefined)) == Throws
  {
  }

  /** The handler with malformed messages ignored rather than thrown, as it does
      for text that does not parse or a `type` it does not know. It never throws,
      and on every message the handler as written accepts it does the same. */
  function Interpret(p: Parsed): (c: Command)
    ensures HandleAsWritten(p).Runs? ==> c == HandleAsWritten(p).command
    ensures HandleAsWritten(p).Throws? ==> c == Ignore
  {
    match p
    case Unparseable => Ignore
    case NullDocument => Ignore
    case Document(kind, field, topic) =>
      match kind
      case SubscribeKind => if field.NotAList? then Ignore else Subscribe(Names(field))
      case UnsubscribeKind => if field.NotAList? then Ignore else Unsubscribe(Names(field))
      case PublishKind => Publish(topic)
      case PingKind => Ping
      case OtherKind => Ignore
  }

  // ---- Membership ------------------------------------------------------------------------

  /** Connection `c` is in the set of topic `t`. */
  predicate Member(topics: Topics, t: Topic, c: ConnId)
  {
    t in topics && c in topics[t]
  }

  /** Topic `t` is in the `subscribedTopics` of live connection `c`. */
  predicate Subscribed(subs: Subscriptions, c: ConnId, t: Topic)
  {
    c in subs && t in subs[c]
  }

  /** No topic entry maps to an empty set. */
  ghost predicate NoEmptyTopic(topics: Topics)
  {
    forall t | t in topics :: topics[t] != {}
  }

  /** The two membership views agree, and only live connections are members. */
  ghost predicate Agree(topics: Topics, subs: Subscriptions)
  {
    && (forall t, c | Member(topics, t, c) :: Subscribed(subs, c, t))
    && (forall c, t | Subscribed(subs, c, t) :: Member(topics, t, c))
  }

  function SetOf(names: seq<Topic>): set<Topic>
  {
    set t | t in names
  }

  /** `subscribe` for the topics `names`: `c` joins each, entries are created as needed. */
  function Join(topics: Topics, c: ConnId, names: set<Topic>): (r: Topics)
    ensures r.Keys == topics.Keys + names
    ensures forall t, d :: Member(r, t, d) <==> Member(topics, t, d) || (d == c && t in names)
  {
    map t | t in topics.Keys + names ::
      (if t in topics then topics[t] else {}) + (if t in names then {c} else {})
  }

  /** `unsubscribe` for the topics `names`: `c` leaves each, and a topic left empty is dropped. */
  function Leave(topics: Topics, c: ConnId, names: set<Topic>): (r: Topics)
    ensures forall t :: t in r <==> t in topics && (t !in names || topics[t] - {c} != {})
    ensures forall t, d :: Member(r, t, d) <==> Member(topics, t, d) && !(d == c && t in names)
  {
    var r := map t | t in topics && (t !in names || topics[t] - {c} != {}) ::
      if t in names then topics[t] - {c} else topics[t];
    assert forall t | t in r :: r[t] == if t in names then topics[t] - {c} else topics[t];
    assert forall t, d | t in topics && d in topics[t] && d != c :: d in topics[t] - {c};
    r
  }

  /** Who a `publish` from `sender` with the given `topic` field reaches. */
  function Recipients(topics: Topics, sender: ConnId, topic: Value): (r: set<ConnId>)
    ensures forall d :: d in r <==> Truthy(topic) && topic.Str? && Member(topics, topic.s, d) && d != sender
  {
    if Truthy(topic) && topic.Str? && topic.s in topics then topics[topic.s] - {sender} else {}
  }

  /** The connections a list of sends goes to. */
  function Targets(sends: seq<Send>): set<ConnId>
  {
    set i | 0 <= i < |sends| :: sends[i].to
  }

  /** `sends` hands `data` to each connection of `receivers` exactly once, and to no one else. */
  ghost predicate DeliversOnce(sends: seq<Send>, receivers: set<ConnId>, data: Payload)
  {
    && Targets(sends) == receivers
    && (forall i | 0 <= i < |sends| :: sends[i].data == data)
    && (forall i, j | 0 <= i < j < |sends| :: sends[i].to != sends[j].to)
  }

  // ---- Properties of the membership operations ------------------------------------------

  /** One iteration of the `subscribe` loop extends `Join` by one topic. */
  lemma JoinStep(topics: Topics, c: ConnId, names: set<Topic>, t: Topic)
    ensures var j := Join(topics, c, names);
      var created := if t in j then j else j[t := {}];
      Join(topics, c, names + {t}) == created[t := created[t] + {c}]
  {
    var j := Join(topics, c, names);
    var created := if t in j then j else j[t := {}];
    var stepped := created[t := created[t] + {c}];
    var joined := Join(topics, c, names + {t});
    assert joined.Keys == stepped.Keys;
    forall u | u in joined
      ensures joined[u] == stepped[u]
    {
      var base := if u in topics then topics[u] else {};
      assert joined[u] == base + (if u in names + {t} then {c} else {});
      if u in j {
        assert j[u] == base + (if u in names then {c} else {});
      }
    }
  }

  /** Joining no topic changes nothing. */
  lemma JoinNone(topics: Topics, c: ConnId)
    ensures Join(topics, c, {}) == topics
  {
    assert forall t | t in topics :: topics[t] + {} == topics[t];
  }

  /** The topics named by a prefix grow one name at a time. */
  lemma SetOfStep(names: seq<Topic>, i: nat)
    requires i < |names|
    ensures SetOf(names[..i + 1]) == SetOf(names[..i]) + {names[i]}
  {
    assert names[..i + 1] == names[..i] + [names[i]];
  }

  /** One iteration of the `unsubscribe` loop, or of the `close` loop, extends `Leave` by one topic. */
  lemma LeaveStep(topics: Topics, c: ConnId, names: set<Topic>, t: Topic)
    ensures var l := Leave(topics, c, names);
      Leave(topics, c, names + {t}) ==
        if t !in l then l
        else if l[t] - {c} == {} then l[t := l[t] - {c}] - {t}
        else l[t := l[t] - {c}]
  {
    var l := Leave(topics, c, names);
    var stepped :=
      if t !in l then l
      else if l[t] - {c} == {} then l[t := l[t] - {c}] - {t}
      else l[t := l[t] - {c}];
    var left := Leave(topics, c, names + {t});
    assert left.Keys == stepped.Keys;
    forall u | u in left
      ensures left[u] == stepped[u]
    {
      forall d
        ensures d in left[u] <==> d in stepped[u]
      {
        assert Member(left, u, d) <==> Member(topics, u, d) && !(d == c && u in names + {t});
      }
    }
  }

  /** Subscribing keeps both invariants. */
  lemma JoinKeepsInvariants(topics: Topics, subs: Subscriptions, c: ConnId, names: set<Topic>)
    requires NoEmptyTopic(topics) && Agree(topics, subs) && c in subs
    ensures NoEmptyTopic(Join(topics, c, names))
    ensures Agree(Join(topics, c, names), subs[c := subs[c] + names])
  {
  }

  /** Unsubscribing keeps both invariants. */
  lemma LeaveKeepsInvariants(topics: Topics, subs: Subscriptions, c: ConnId, names: set<Topic>)
    requires NoEmptyTopic(topics) && Agree(topics, subs) && c in subs
    ensures NoEmptyTopic(Leave(topics, c, names))
    ensures Agree(Leave(topics, c, names), subs[c := subs[c] - names])
  {
  }

  /** Closing a connection takes it out of every topic it belonged to, keeps
      both invariants for the connections that remain, and leaves every other
      connection's membership as it was. */
  lemma CloseKeepsInvariants(topics: Topics, subs: Subscriptions, c: ConnId)
    requires NoEmptyTopic(topics) && Agree(topics, subs) && c in subs
    ensures forall t :: !Member(Leave(topics, c, subs[c]), t, c)
    ensures forall t, d | d != c :: Member(Leave(topics, c, subs[c]), t, d) <==> Member(topics, t, d)
    ensures NoEmptyTopic(Leave(topics, c, subs[c]))
    ensures Agree(Leave(topics, c, subs[c]), subs - {c})
  {
  }

  /** Repeating a `subscribe` changes nothing. */
  lemma JoinIdempotent(topics: Topics, c: ConnId, names: set<Topic>)
    ensures Join(Join(topics, c, names), c, names) == Join(topics, c, names)
  {
  }

  /** A `publish` to topic `a` reaches a connection exactly when that connection
      listed `a` in its own subscriptions and is not the sender: a connection
      subscribed only to other topics receives nothing. */
  lemma PublishReachesExactlyTheTopic(topics: Topics, subs: Subscriptions, sender: ConnId, a: Topic, d: ConnId)
    requires Agree(topics, subs)
    ensures d in Recipients(topics, sender, Str(a)) <==> a != "" && d != sender && Subscribed(subs, d, a)
  {
  }

  // ---- The relay -------------------------------------------------------------------------

  /** The forwarding loop of `publish`: every receiver but the sender gets `data`. */
  method Fanout(receivers: set<ConnId>, sender: ConnId, data: Payload) returns (sends: seq<Send>)
    ensures DeliversOnce(sends, receivers - {sender}, data)
  {
    sends := [];
    var rest := receivers;
    while rest != {}
      invariant rest <= receivers
      invariant DeliversOnce(sends, (receivers - rest) - {sender}, data)
      decreases rest
    {
      var r :| r in rest;
      if r != sender {
        assert Targets(sends + [Send(r, data)]) == Targets(sends) + {r} by {
          var next := sends + [Send(r, data)];
          forall x | x in Targets(next)
            ensures x in Targets(sends) + {r}
          {
            var i :| 0 <= i < |next| && next[i].to == x;
            if i < |sends| { assert sends[i].to == x; }
          }
          forall x | x in Targets(sends) + {r}
            ensures x in Targets(next)
          {
            if x == r {
              assert next[|sends|].to == x;
            } else {
              var i :| 0 <= i < |sends| && sends[i].to == x;
              assert next[i].to == x;
            }
          }
        }
        sends := sends + [Send(r, data)];
      }
      rest := rest - {r};
    }
  }

  class Relay {
    var topics: Topics
    var subscribed: Subscriptions
    var outbox: seq<Send>

    ghost predicate Valid()
      reads this
    {
      NoEmptyTopic(topics) && Agree(topics, subscribed)
    }

    constructor ()
      ensures Valid()
      ensures topics == map[] && subscribed == map[] && outbox == []
    {
      topics, subscribed, outbox := map[], map[], [];
    }

    /** A new connection starts with an empty `subscribedTopics`. */
    method Connect(c: ConnId)
      requires Valid() && c !in subscribed
      modifies this`subscribed
      ensures Valid()
      ensures subscribed == old(subscribed)[c := {}]
    {
      forall t | Member(topics, t, c)
        ensures false
      {
      }
      subscribed := subscribed[c := {}];
    }

    /** The `subscribe` case. */
    method Subscribe(c: ConnId, names: seq<Topic>)
      requires Valid() && c in subscribed
      modifies this`topics, this`subscribed
      ensures Valid()
      ensures topics == Join(old(topics), c, SetOf(names))
      ensures subscribed == old(subscribed)[c := old(subscribed)[c] + SetOf(names)]
    {
      assert SetOf(names[..0]) == {};
      JoinNone(old(topics), c);
      assert old(subscribed)[c] + {} == old(subscribed)[c];
      assert old(subscribed)[c := old(subscribed)[c] + {}] == old(subscribed);
      for i := 0 to |names|
        invariant c in subscribed
        invariant topics == Join(old(topics), c, SetOf(names[..i]))
        invariant subscribed == old(subscribed)[c := old(subscribed)[c] + SetOf(names[..i])]
      {
        var t := names[i];
        JoinStep(old(topics), c, SetOf(names[..i]), t);
        SetOfStep(names, i);
        assert (old(subscribed)[c] + SetOf(names[..i])) + {t} == old(subscribed)[c] + SetOf(names[..i + 1]);
        subscribed := subscribed[c := subscribed[c] + {t}];
        if t !in topics {
          topics := topics[t := {}];
        }
        topics := topics[t := topics[t] + {c}];
      }
      assert names[..|names|] == names;
      JoinKeepsInvariants(old(topics), old(subscribed), c, SetOf(names));
    }

    /** The `unsubscribe` case. */
    method Unsubscribe(c: ConnId, names: seq<Topic>)
      requires Valid() && c in subscribed
      modifies this`topics, this`subscribed
      ensures Valid()
      ensures topics == Leave(old(topics), c, SetOf(names))
      ensures subscribed == old(subscribed)[c := old(subscribed)[c] - SetOf(names)]
    {
      assert SetOf(names[..0]) == {};
      assert old(subscribed)[c] - {} == old(subscribed)[c];
      assert old(subscribed)[c := old(subscribed)[c] - {}] == old(subscribed);
      for i := 0 to |names|
        invariant c in subscribed
        invariant topics == Leave(old(topics), c, SetOf(names[..i]))
        invariant subscribed == old(subscribed)[c := old(subscribed)[c] - SetOf(names[..i])]
      {
        var t := names[i];
        LeaveStep(old(topics), c, SetOf(names[..i]), t);
        SetOfStep(names, i);
        assert (old(subscribed)[c] - SetOf(names[..i])) - {t} == old(subscribed)[c] - SetOf(names[..i + 1]);
        subscribed := subscribed[c := subscribed[c] - {t}];
        if t in topics {
          topics := topics[t := topics[t] - {c}];
          if topics[t] == {} {
            topics := topics - {t};
          }
        }
      }
      assert names[..|names|] == names;
      LeaveKeepsInvariants(old(topics), old(subscribed), c, SetOf(names));
    }

    /** The `publish` case: with a truthy `topic` that has an entry, the raw
        message goes to every other member of that topic; otherwise nothing is sent. */
    method Publish(c: ConnId, raw: Payload, topic: Value)
      requires Valid()
      modifies this`outbox
      ensures Valid()
      ensures exists sends :: outbox == old(outbox) + sends && DeliversOnce(sends, Recipients(topics, c, topic), raw)
      ensures Recipients(topics, c, topic) == {} ==> outbox == old(outbox)
    {
      if Truthy(topic) && topic.Str? && topic.s in topics {
        var sends := Fanout(topics[topic.s], c, raw);
        outbox := outbox + sends;
        assert |sends| > 0 ==> sends[0].to in Targets(sends);
      } else {
        assert DeliversOnce([], {}, raw);
        assert outbox == old(outbox) + [];
      }
    }

    /** The `ping` case: one `pong` to the sender. */
    method Ping(c: ConnId)
      requires Valid()
      modifies this`outbox
      ensures Valid()
      ensures outbox == old(outbox) + [Send(c, PongText)]
    {
      outbox := outbox + [Send(c, PongText)];
    }

    /** The `message` handler of a live connection. */
    method OnMessage(c: ConnId, raw: Payload, p: Parsed)
      requires Valid() && c in subscribed
      modifies this
      ensures Valid()
      ensures match Interpret(p)
        case Subscribe(names) =>
          && topics == Join(old(topics), c, SetOf(names))
          && subscribed == old(subscribed)[c := old(subscribed)[c] + SetOf(names)]
          && outbox == old(outbox)
        case Unsubscribe(names) =>
          && topics == Leave(old(topics), c, SetOf(names))
          && subscribed == old(subscribed)[c := old(subscribed)[c] - SetOf(names)]
          && outbox == old(outbox)
        case Publish(topic) =>
          && topics == old(topics) && subscribed == old(subscribed)
          && exists sends :: outbox == old(outbox) + sends && DeliversOnce(sends, Recipients(topics, c, topic), raw)
        case Ping =>
          topics == old(topics) && subscribed == old(subscribed) && outbox == old(outbox) + [Send(c, PongText)]
        case Ignore =>
          topics == old(topics) && subscribed == old(subscribed) && outbox == old(outbox)
    {
      match Interpret(p)
      case Subscribe(names) => Subscribe(c, names);
      case Unsubscribe(names) => Unsubscribe(c, names);
      case Publish(topic) => Publish(c, raw, topic);
      case Ping => Ping(c);
      case Ignore =>
    }

    /** The `close` handler: the connection leaves every topic it subscribed to,
        with the same clean-up of empty topics, and is forgotten. */
    method Close(c: ConnId)
      requires Valid() && c in subscribed
      modifies this`topics, this`subscribed
      ensures Valid()
      ensures topics == Leave(old(topics), c, old(subscribed)[c])
      ensures subscribed == old(subscribed) - {c}
      ensures forall t :: !Member(topics, t, c)
    {
      var all := subscribed[c];
      var rest := all;
      while rest != {}
        invariant rest <= all
        invariant subscribed == old(subscribed)
        invariant topics == Leave(old(topics), c, all - rest)
        decreases rest
      {
        var t :| t in rest;
        LeaveStep(old(topics), c, all - rest, t);
        assert (all - rest) + {t} == all - (rest - {t});
        if t in topics {
          topics := topics[t := topics[t] - {c}];
          if topics[t] == {} {
            topics := topics - {t};
          }
        }
        rest := rest - {t};
      }
      assert all - rest == all;
      subscribed := subscribed - {c};
      CloseKeepsInvariants(old(topics), old(subscribed), c);
    }
  }
}
