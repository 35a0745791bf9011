/** Identifiers, event names and payloads exchanged between the server and its clients. */
module Signaling {

  /** A socket.io connection identifier (`socket.id`). */
  type Id = string

  /** A room name. The session table stores the empty string for "no room". */
  type RoomId = string

  const NoRoom: RoomId := ""

  datatype Option<T> = None | Some(value: T)

  /** The names of the events the server emits. */
  datatype Event =
    | NotEnoughUsers
    | MatchFound
    | YouAreInitiator
    | UserDisconnected
    | MessageFromUser
    | Offer
    | Answer
    | IceCandidate
    | LocalStreamSet
  {
    /** The five kinds the server forwards from one room member to the others. */
    predicate IsRelay() {
      MessageFromUser? || Offer? || Answer? || IceCandidate? || LocalStreamSet?
    }
  }

  type RelayEvent = e: Event | e.IsRelay() witness MessageFromUser

  /** What an event carries. The relay never looks inside a payload. */
  datatype Payload =
    | Nothing
    | Text(text: string)
    | Flag(flag: bool)
    | Description(sdp: string, sdpType: string)
    | Candidate(candidate: string, sdpMLineIndex: int, sdpMid: string)

  /** One call to `emit`: the sockets it reaches, the event name and the payload. */
  datatype Emit = Emit(to: set<Id>, event: Event, payload: Payload)

  const MatchedText: string := "You are matched with another user"
  const DisconnectedText: string := "Other user has disconnected"

  predicate IsDigits(s: string) {
    forall i :: 0 <= i < |s| ==> '0' <= s[i] <= '9'
  }

  function Digit(d: nat): (c: char)
    requires d < 10
    ensures '0' <= c <= '9' && c as int - '0' as int == d
  {
    ('0' as int + d) as char
  }

  /** The decimal text JavaScript produces for a non-negative integer: no leading zero. */
  function Decimal(n: nat): (r: string)
    ensures |r| >= 1 && IsDigits(r)
    ensures n < 10 <==> |r| == 1
    ensures n >= 10 ==> r[0] != '0'
    decreases n
  {
    if n < 10 then [Digit(n)]
    else
      var front := Decimal(n / 10);
      assert (front + [Digit(n % 10)])[0] == front[0];
      front + [Digit(n % 10)]
  }

  /** The number a string of decimal digits denotes. */
  function DigitsValue(s: string): nat
    requires IsDigits(s)
    decreases |s|
  {
    if s == [] then 0 else DigitsValue(s[..|s| - 1]) * 10 + (s[|s| - 1] as int - '0' as int)
  }

  lemma {:induction false} DecimalRoundTrip(n: nat)
    ensures DigitsValue(Decimal(n)) == n
  {
    if n >= 10 {
      DecimalRoundTrip(n / 10);
      var d := Decimal(n);
      assert d[..|d| - 1] == Decimal(n / 10);
    }
  }

  /** The text of `notEnoughUsers`: "Only " + n + " users online". */
  function OnlyUsersOnline(n: nat): (msg: string)
    ensures |msg| == |Decimal(n)| + 18
    ensures msg[..5] == "Only " && msg[|msg| - 13..] == " users online"
    ensures msg[5..|msg| - 13] == Decimal(n)
  {
    "Only " + Decimal(n) + " users online"
  }

  /** The message names the queue length exactly: two different counts give two different texts. */
  lemma CountReadBack(n: nat, m: nat)
    requires OnlyUsersOnline(n) == OnlyUsersOnline(m)
    ensures n == m
  {
    var msg := OnlyUsersOnline(n);
    DecimalRoundTrip(n);
    DecimalRoundTrip(m);
    assert Decimal(n) == msg[5..|msg| - 13] == Decimal(m);
  }
}
