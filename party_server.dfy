/**
 * The party-based sync server: protocol-version selection and the broadcast that relays a
 * message from one connection to every other connection of the party.
 */
module PartyServer {
  import opened Wrappers
  import opened Bytes
  import opened Protocol

  /** A JavaScript result that is `undefined`, `null`, or a protocol version. */
  datatype Selection = Undefined | Null | Selected(version: ProtocolVersion)

  /**
   * `selectProtocol(versions?)`: no list gives `undefined`, a list offering "1" gives "1",
   * and any other list gives `null`.
   */
  function SelectProtocol(versions: Option<seq<ProtocolVersion>>): (r: Selection)
    ensures r == Undefined <==> versions.None?
    ensures r == Selected(V1) <==> versions.Some? && V1 in versions.value
    ensures r == Null <==> versions.Some? && V1 !in versions.value
    ensures r.Selected? ==> r.version == V1
  {
    if versions.None? then Undefined
    else if V1 in versions.value then Selected(V1)
    else Null
  }

  /** The connections of `cons`, in order, that are not the sender. */
  function Recipients(cons: seq<Connection>, sender: Connection): seq<Connection>
    decreases |cons|
  {
    if cons == [] then []
    else
      var last := cons[|cons| - 1];
      Recipients(cons[..|cons| - 1], sender) + (if last != sender then [last] else [])
  }

  /** No connection appears twice, as in a party's set of connections. */
  ghost predicate Distinct(cons: seq<Connection>)
  {
    forall i, j :: 0 <= i < j < |cons| ==> cons[i] != cons[j]
  }

  /**
   * `onMessage(party, message, peer)`: for every connection of the party other than the
   * sender, write `encode(message)` to it. Returns the writes in the order they happen.
   */
  method Broadcast<M>(encode: M -> Uint8View, message: M, cons: seq<Connection>, sender: Connection)
    returns (sent: seq<Frame<Uint8View>>)
    ensures |sent| == |Recipients(cons, sender)|
    ensures forall i :: 0 <= i < |sent| ==> sent[i] == Frame(Recipients(cons, sender)[i], encode(message))
  {
    sent := [];
    for k := 0 to |cons|
      invariant |sent| == |Recipients(cons[..k], sender)|
      invariant forall i :: 0 <= i < |sent| ==> sent[i] == Frame(Recipients(cons[..k], sender)[i], encode(message))
    {
      var con := cons[k];
      assert cons[..k + 1][..k] == cons[..k];
      if con != sender {
        sent := sent + [Frame(con, encode(message))];
      }
    }
    assert cons[..|cons|] == cons;
  }

  /**
   * The sender never receives its own message, and every other connection receives it as
   * many times as it occurs among the party's connections.
   */
  lemma {:induction false} RecipientsCount(cons: seq<Connection>, sender: Connection, c: Connection)
    ensures multiset(Recipients(cons, sender))[c] == if c == sender then 0 else multiset(cons)[c]
    decreases |cons|
  {
    if cons != [] {
      var n := |cons| - 1;
      RecipientsCount(cons[..n], sender, c);
      assert cons == cons[..n] + [cons[n]];
    }
  }

  /** In a list without repeats every element occurs exactly once. */
  lemma {:induction false} DistinctOccursOnce(cons: seq<Connection>, c: Connection)
    requires Distinct(cons)
    ensures multiset(cons)[c] == if c in cons then 1 else 0
    decreases |cons|
  {
    if cons != [] {
      var n := |cons| - 1;
      assert cons == cons[..n] + [cons[n]];
      assert Distinct(cons[..n]);
      DistinctOccursOnce(cons[..n], c);
      if c == cons[n] {
        assert c !in cons[..n];
      }
    }
  }

  /**
   * Over a party's connections (no repeats), the broadcast writes exactly once to every
   * connection other than the sender, never to the sender, and the same bytes,
   * `encode(message)`, to all of them.
   */
  lemma BroadcastReachesOthersOnce<M>(encode: M -> Uint8View, message: M, cons: seq<Connection>,
                                      sender: Connection, sent: seq<Frame<Uint8View>>, c: Connection)
    requires Distinct(cons)
    requires |sent| == |Recipients(cons, sender)|
    requires forall i :: 0 <= i < |sent| ==> sent[i] == Frame(Recipients(cons, sender)[i], encode(message))
    ensures multiset(seq(|sent|, i requires 0 <= i < |sent| => sent[i].conn))[c]
         == if c in cons && c != sender then 1 else 0
    ensures forall f :: f in sent ==> f.conn != sender && f.data == encode(message)
  {
    RecipientsCount(cons, sender, c);
    DistinctOccursOnce(cons, c);
    assert seq(|sent|, i requires 0 <= i < |sent| => sent[i].conn) == Recipients(cons, sender);
    forall f | f in sent
      ensures f.conn != sender && f.data == encode(message)
    {
      var i :| 0 <= i < |sent| && sent[i] == f;
      RecipientsCount(cons, sender, sender);
      assert Recipients(cons, sender)[i] in multiset(Recipients(cons, sender));
    }
  }
}
