// Point-to-point messages: a first-in first-out channel for every ordered pair of ranks
// (section 3.5 of MPI 2.2).
module Messages {

  const ANY_TAG: int := -1

  datatype Body = Text(text: string) | Number(value: int)

  datatype Msg = Msg(tag: int, body: Body)

  type Channels = map<(nat, nat), seq<Msg>>

  function Queue(chan: Channels, a: nat, b: nat): seq<Msg> {
    if (a, b) in chan then chan[(a, b)] else []
  }

  // The position of the first message a receive with this tag accepts.
  function Match(q: seq<Msg>, tag: int): (k: nat)
    ensures k <= |q|
    ensures q != [] && (tag == ANY_TAG || q[0].tag == tag) ==> k == 0
  {
    if q == [] || tag == ANY_TAG || q[0].tag == tag then 0 else 1 + Match(q[1..], tag)
  }

  predicate CanReceive(chan: Channels, a: nat, b: nat, tag: int) {
    Match(Queue(chan, a, b), tag) < |Queue(chan, a, b)|
  }

  function Received(chan: Channels, a: nat, b: nat, tag: int): Msg
    requires CanReceive(chan, a, b, tag)
  {
    Queue(chan, a, b)[Match(Queue(chan, a, b), tag)]
  }

  function Send(chan: Channels, a: nat, b: nat, msg: Msg): Channels {
    chan[(a, b) := Queue(chan, a, b) + [msg]]
  }

  function Receive(chan: Channels, a: nat, b: nat, tag: int): Channels
    requires CanReceive(chan, a, b, tag)
  {
    var q, k := Queue(chan, a, b), Match(Queue(chan, a, b), tag);
    chan[(a, b) := q[..k] + q[k + 1..]]
  }
}
