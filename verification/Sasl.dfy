/**
 The SASL exchange (src/dbus/sasl.c): the server accepts the EXTERNAL mechanism only, the
 client sends everything at once and checks the answers as they come.
 */
module Sasl {
  import opened Base
  import opened Bytes
  import Address

  // ---------------------------------------------------------------- command and argument

  // up to the first blank
  function Command(s: string): (c: string)
    ensures c <= s && ' ' !in c
  {
    if s == "" || s[0] == ' ' then "" else [s[0]] + Command(s[1..])
  }

  function SkipBlanks(s: string): string {
    if s != "" && s[0] == ' ' then SkipBlanks(s[1..]) else s
  }

  // what follows the blanks after the command
  function Argument(s: string): string {
    SkipBlanks(s[|Command(s)|..])
  }

  // sasl_split()
  method Split(input: string) returns (cmd: string, arg: string)
    ensures cmd == Command(input) && arg == Argument(input)
  {
    var n := 0;
    while n < |input| && input[n] != ' '
      invariant n <= |input| && Command(input) == input[..n] + Command(input[n..])
    {
      CommandFrom(input, n);
      n := n + 1;
    }
    var from := n;
    while from < |input| && input[from] == ' '
      invariant n <= from <= |input| && SkipBlanks(input[n..]) == SkipBlanks(input[from..])
    {
      assert input[from..][1..] == input[from + 1..];
      from := from + 1;
    }
    assert Command(input[n..]) == "";
    return input[..n], input[from..];
  }

  lemma CommandFrom(s: string, n: nat)
    requires n < |s| && s[n] != ' '
    ensures s[..n] + Command(s[n..]) == s[..n + 1] + Command(s[n + 1..])
  {
    assert s[n..][1..] == s[n + 1..] && s[..n + 1] == s[..n] + [s[n]];
  }

  // A command without blanks and its argument are found again, however many blanks there are.
  lemma {:induction false} SplitFinds(cmd: string, blanks: nat, arg: string)
    requires ' ' !in cmd && (arg != "" ==> blanks > 0 && arg[0] != ' ')
    ensures var s := cmd + seq(blanks, _ => ' ') + arg;
      Command(s) == cmd && Argument(s) == arg
  {
    var s := cmd + seq(blanks, _ => ' ') + arg;
    if cmd == "" {
      SkipsBlanks(blanks, arg);
      assert s == seq(blanks, _ => ' ') + arg;
    } else {
      SplitFinds(cmd[1..], blanks, arg);
      assert s[1..] == cmd[1..] + seq(blanks, _ => ' ') + arg;
      assert s[|cmd|..] == s[1..][|cmd| - 1..];
    }
  }

  lemma {:induction false} SkipsBlanks(blanks: nat, arg: string)
    requires arg != "" ==> arg[0] != ' '
    ensures SkipBlanks(seq(blanks, _ => ' ') + arg) == arg
  {
    var s := seq(blanks, _ => ' ') + arg;
    if blanks > 0 {
      assert s[1..] == seq(blanks - 1, _ => ' ') + arg;
      SkipsBlanks(blanks - 1, arg);
    } else {
      assert s == arg;
    }
  }

  // ---------------------------------------------------------------- server

  datatype State = Init | Done | Auth | Challenge | Authenticated | NegotiatedFds

  datatype Reply =
    | Ok             // "OK" and the id of the server
    | Rejected
    | Error
    | Data
    | AgreeUnixFd
    | Silence        // the exchange is over
    | Violation

  function HexDigit(n: nat): Byte
    requires n < 16
  {
    "0123456789abcdef"[n]
  }

  // the halves of a byte
  function Upper(c: char): (n: nat)
    ensures n < 16
  {
    c as int / 16 % 16
  }

  function Lower(c: char): (n: nat)
    ensures n < 16
  {
    c as int % 16
  }

  function Hex(s: string): seq<Byte> {
    if s == "" then "" else [HexDigit(Upper(s[0])), HexDigit(Lower(s[0]))] + Hex(s[1..])
  }

  // what a client with this uid may send to prove its identity
  function Credential(uid: nat): string {
    Hex(Address.Decimal(uid))
  }

  // what one line makes of the server
  datatype Server = Server(state: State, fdsAllowed: bool)

  const FRESH := Server(Init, false)

  function HandleData(s: Server, uid: nat, input: string): (Server, Reply) {
    if input != "" && input != Credential(uid) then (s.(state := Auth), Rejected)
    else (s.(state := Authenticated), Ok)
  }

  function HandleAuth(s: Server, uid: nat, input: string): (Server, Reply) {
    if Command(input) != "EXTERNAL" then (s.(state := Auth), Rejected)
    else if Argument(input) != "" then HandleData(s, uid, Argument(input))
    else (s.(state := Challenge), Data)
  }

  function Step(s: Server, uid: nat, line: string): (Server, Reply) {
    match s.state
    case Init =>
      if Command(line) == "" || line[0] != '\0' then (s, Violation)
      else Dispatched(s.(state := Init), uid, Command(line)[1..], Argument(line))
    case _ => Dispatched(s, uid, Command(line), Argument(line))
  }

  function Dispatched(s: Server, uid: nat, cmd: string, arg: string): (Server, Reply) {
    match s.state
    case Init | Auth =>
      if cmd == "AUTH" then HandleAuth(s, uid, arg)
      else if cmd == "ERROR" then (s.(state := Auth), Rejected)
      else if cmd == "BEGIN" && arg == "" then (s, Violation)
      else (s, Error)
    case Challenge =>
      if cmd == "DATA" then HandleData(s, uid, arg)
      else if cmd == "ERROR" || (cmd == "CANCEL" && arg == "") then (s.(state := Auth), Rejected)
      else if cmd == "BEGIN" && arg == "" then (s, Violation)
      else (s, Error)
    case Authenticated | NegotiatedFds =>
      if cmd == "NEGOTIATE_UNIX_FD" && arg == "" then (Server(NegotiatedFds, true), AgreeUnixFd)
      else if cmd == "BEGIN" && arg == "" then (s.(state := Done), Silence)
      else if cmd == "ERROR" || (cmd == "CANCEL" && arg == "") then (Server(Auth, false), Rejected)
      else (s, Error)
    case Done => (s, Violation)
  }

  // the line that goes out, if any
  function Answer(r: Reply, okResponse: string): seq<string> {
    match r
    case Ok => [okResponse]
    case Rejected => ["REJECTED EXTERNAL"]
    case Error => ["ERROR"]
    case Data => ["DATA"]
    case AgreeUnixFd => ["AGREE_UNIX_FD"]
    case Silence | Violation => []
  }

  class SaslServer {
    var state: State
    var fdsAllowed: bool
    const uid: nat
    const okResponse: seq<Byte>

    function Now(): Server
      reads this
    {
      Server(state, fdsAllowed)
    }

    // sasl_server_init()
    constructor (uid: nat, guid: string)
      ensures Now() == FRESH && this.uid == uid && okResponse == "OK " + Hex(guid)
    {
      state, fdsAllowed := Init, false;
      this.uid := uid;
      okResponse := "OK " + Hex(guid);
    }

    // the line that goes out
    function Output(r: Reply): (line: Option<seq<Byte>>)
      ensures line.None? <==> r in {Silence, Violation}
      ensures r == Ok ==> line == Some(okResponse)
      ensures r == Rejected ==> line == Some("REJECTED EXTERNAL")
      ensures r == Error ==> line == Some("ERROR")
      ensures r == Data ==> line == Some("DATA")
      ensures r == AgreeUnixFd ==> line == Some("AGREE_UNIX_FD")
    {
      if Answer(r, okResponse) == [] then None else Some(Answer(r, okResponse)[0])
    }

    // sasl_server_handle_data()
    method HandleDataInput(input: string) returns (r: Reply)
      modifies this
      ensures (Now(), r) == HandleData(old(Now()), uid, input)
    {
      if input != "" && input != Credential(uid) {
        state := Auth;
        return Rejected;
      }
      state := Authenticated;
      return Ok;
    }

    // sasl_server_handle_auth()
    method HandleAuthInput(input: string) returns (r: Reply)
      modifies this
      ensures (Now(), r) == HandleAuth(old(Now()), uid, input)
    {
      var protocol, arg := Split(input);
      if protocol == "EXTERNAL" {
        if arg != "" {
          r := HandleDataInput(arg);
          return r;
        }
        state := Challenge;
        return Data;
      }
      state := Auth;
      return Rejected;
    }

    // sasl_server_dispatch()
    method Dispatch(input: string) returns (r: Reply)
      requires state != Done
      modifies this
      ensures (Now(), r) == Step(old(Now()), uid, input)
    {
      var cmd, arg := Split(input);
      match state
      case Init =>
        if |cmd| < 1 || cmd[0] != '\0' {
          return Violation;
        }
        r := DispatchUnauthenticated(cmd[1..], arg);
      case Auth =>
        r := DispatchUnauthenticated(cmd, arg);
      case Challenge =>
        if cmd == "DATA" {
          r := HandleDataInput(arg);
        } else if cmd == "ERROR" || (cmd == "CANCEL" && arg == "") {
          state := Auth;
          r := Rejected;
        } else if cmd == "BEGIN" && arg == "" {
          r := Violation;
        } else {
          r := Error;
        }
      case Authenticated | NegotiatedFds =>
        if cmd == "NEGOTIATE_UNIX_FD" && arg == "" {
          fdsAllowed := true;
          state := NegotiatedFds;
          r := AgreeUnixFd;
        } else if cmd == "BEGIN" && arg == "" {
          state := Done;
          r := Silence;
        } else if cmd == "ERROR" || (cmd == "CANCEL" && arg == "") {
          fdsAllowed := false;
          state := Auth;
          r := Rejected;
        } else {
          r := Error;
        }
    }

    // the case of a peer that has not begun to authenticate
    method DispatchUnauthenticated(cmd: string, arg: string) returns (r: Reply)
      requires state == Init || state == Auth
      modifies this
      ensures (Now(), r) == Dispatched(old(Now()), uid, cmd, arg)
    {
      if cmd == "AUTH" {
        r := HandleAuthInput(arg);
      } else if cmd == "ERROR" {
        state := Auth;
        r := Rejected;
      } else if cmd == "BEGIN" && arg == "" {
        r := Violation;
      } else {
        r := Error;
      }
    }
  }

  // ---------------------------------------------------------------- what is answered to what

  lemma HexDigitIs(n: nat)
    requires n < 16
    ensures HexDigit(n) as int == if n < 10 then '0' as int + n else 'a' as int + n - 10
  {
  }

  // Two lower-case digits for each byte, the upper half first
  lemma HexIs(s: string, i: nat)
    requires i < |s| && (s[i] as int) < 256
    ensures |Hex(s)| == 2 * |s|
    ensures var upper, lower := s[i] as int / 16, s[i] as int % 16;
      && Hex(s)[2 * i] as int == (if upper < 10 then '0' as int + upper else 'a' as int + upper - 10)
      && Hex(s)[2 * i + 1] as int == (if lower < 10 then '0' as int + lower else 'a' as int + lower - 10)
  {
    hide *;
    HexAt(s, i);
    Halves(s[i]);
    HexDigitIs(Upper(s[i]));
    HexDigitIs(Lower(s[i]));
  }

  lemma Halves(c: char)
    requires c as int < 256
    ensures Upper(c) == c as int / 16 && Lower(c) == c as int % 16
  {
  }

  lemma {:induction false} HexAt(s: string, i: nat)
    requires i < |s|
    ensures |Hex(s)| == 2 * |s|
    ensures Hex(s)[2 * i] == HexDigit(Upper(s[i])) && Hex(s)[2 * i + 1] == HexDigit(Lower(s[i]))
  {
    hide *;
    HexFirst(s);
    if i > 0 {
      HexAt(s[1..], i - 1);
      Behind(Hex(s), Hex(s[1..]), 2 * (i - 1));
    }
  }

  lemma HexFirst(s: string)
    requires s != ""
    ensures |Hex(s)| == 2 * |s| && |Hex(s[1..])| == 2 * |s| - 2 && Hex(s)[2..] == Hex(s[1..])
    ensures Hex(s)[0] == HexDigit(Upper(s[0])) && Hex(s)[1] == HexDigit(Lower(s[0]))
  {
    HexLength(s[1..]);
  }

  lemma Behind(h: seq<Byte>, t: seq<Byte>, j: nat)
    requires |h| > 1 && h[2..] == t && j + 1 < |t|
    ensures h[j + 2] == t[j] && h[j + 3] == t[j + 1]
  {
  }

  lemma {:induction false} HexLength(s: string)
    ensures |Hex(s)| == 2 * |s|
  {
    if s != "" {
      HexLength(s[1..]);
    }
  }

  // The credential is the uid in decimal, each digit d written as "3d".
  lemma CredentialIs(uid: nat, i: nat)
    requires i < |Address.Decimal(uid)|
    ensures |Credential(uid)| == 2 * |Address.Decimal(uid)|
    ensures Credential(uid)[2 * i] == '3' && Credential(uid)[2 * i + 1] == Address.Decimal(uid)[i]
  {
    var d := Address.Decimal(uid)[i];
    assert Address.IsDigit(d) && d as int / 16 == 3;
    HexIs(Address.Decimal(uid), i);
    hide Hex;
  }

  // the line, without the zero byte that comes before the exchange
  function Content(s: Server, line: string): string {
    if s.state == Init && line != "" then line[1..] else line
  }

  // Which lines get which reply: OK for the right credential, or for none where it was asked for; DATA
  // asks for it; descriptors are agreed to, and the exchange ends, for the authenticated only.
  lemma ReplyIff(s: Server, uid: nat, line: string)
    requires s.state != Done && (s.state == Init ==> line != "" && line[0] == '\0')
    ensures var r, cmd, arg := Step(s, uid, line).1, Command(Content(s, line)), Argument(Content(s, line));
      var early, asked := s.state in {Init, Auth}, s.state == Challenge;
      var external := early && cmd == "AUTH" && Command(arg) == "EXTERNAL";
      var proof := if asked && cmd == "DATA" then arg else Argument(arg);
      var proves := (external && proof != "") || (asked && cmd == "DATA");
      && (r == Ok <==> proves && (proof == Credential(uid) || proof == ""))
      && (r == Data <==> external && proof == "")
      && (r == AgreeUnixFd <==> !early && !asked && cmd == "NEGOTIATE_UNIX_FD" && arg == "")
      && (r == Silence <==> !early && !asked && cmd == "BEGIN" && arg == "")
      && (r == Violation <==> (early || asked) && cmd == "BEGIN" && arg == "")
      && (r == Rejected <==>
            || cmd == "ERROR" || (!early && cmd == "CANCEL" && arg == "")
            || (early && cmd == "AUTH" && !external)
            || (proves && proof != "" && proof != Credential(uid)))
  {
    if s.state == Init {
      CommandTail(line);
    }
    hide Command;
    hide Argument;
    hide Credential;
  }

  // Without the zero byte nothing begins, and after the end nothing goes on.
  lemma NoReply(s: Server, uid: nat, line: string)
    requires s.state == Done || (s.state == Init && (line == "" || line[0] != '\0'))
    ensures Step(s, uid, line) == (s, Violation)
  {
  }

  // The greeting of a server with an id of 16 bytes is what the client expects.
  lemma GreetingAccepted(guid: string)
    requires |guid| == 16 && guid[0] as int < 256
    ensures OkResponse("OK " + Hex(guid))
    ensures ClientStep(ClientData, Some("OK " + Hex(guid))) == (ClientUnixFd, NoOutput)
  {
    HexIs(guid, 0);
    hide Hex;
    hide ClientStep;
    var s := "OK " + Hex(guid);
    assert s[3] == Hex(guid)[0] && s[..3] == "OK ";
    AnswerSteps(s);
  }

  // how each reply leaves the server
  lemma StepByReply(s: Server, uid: nat, line: string)
    requires s.fdsAllowed ==> s.state in {Authenticated, NegotiatedFds, Done}
    ensures var (s', r) := Step(s, uid, line);
      match r
      case Violation | Error => s' == s
      case Rejected => s' == Server(Auth, false)
      case Data => s' == s.(state := Challenge) && s.state in {Init, Auth}
      case Ok => s' == s.(state := Authenticated) && s.state in {Init, Auth, Challenge}
      case AgreeUnixFd => s' == Server(NegotiatedFds, true) && s.state in {Authenticated, NegotiatedFds}
      case Silence => s' == s.(state := Done) && s.state in {Authenticated, NegotiatedFds}
  {
  }

  // ---------------------------------------------------------------- runs of the server

  datatype Session = Session(server: Server, replies: seq<Reply>)

  // all lines of a session that has not been cut off
  function Run(uid: nat, lines: seq<string>): Option<Session> {
    if lines == [] then Some(Session(FRESH, []))
    else
      match Run(uid, lines[..|lines| - 1])
      case None => None
      case Some(before) =>
        var (after, r) := Step(before.server, uid, lines[|lines| - 1]);
        if r == Violation then None else Some(Session(after, before.replies + [r]))
  }

  // the last reset, if any, came before reply i
  ghost predicate SinceReset(replies: seq<Reply>, i: nat, r: Reply) {
    && i < |replies| && replies[i] == r
    && forall j :: i < j < |replies| ==> replies[j] != Rejected
  }

  ghost predicate Given(replies: seq<Reply>, r: Reply) {
    exists i: nat :: SinceReset(replies, i, r)
  }

  lemma GivenMore(replies: seq<Reply>, r: Reply, x: Reply)
    requires r != Rejected
    ensures Given(replies + [x], r) <==> x == r || (x != Rejected && Given(replies, r))
  {
    var more := replies + [x];
    assert more[|replies|] == x && forall j :: 0 <= j < |replies| ==> more[j] == replies[j];
    if x == r {
      assert SinceReset(more, |replies|, r);
    } else {
      if i: nat :| SinceReset(replies, i, r) && x != Rejected {
        assert SinceReset(more, i, r);
      }
      if i: nat :| SinceReset(more, i, r) {
        assert i < |replies| && SinceReset(replies, i, r);
      }
    }
  }

  // The server has authenticated the client exactly if it said OK since the last reset, and
  // file descriptors are allowed exactly if it agreed to them since then.
  lemma {:induction false} AuthenticatedIffOk(uid: nat, lines: seq<string>)
    requires Run(uid, lines).Some?
    ensures var s := Run(uid, lines).value;
      && |s.replies| == |lines|
      && (s.server.state in {Authenticated, NegotiatedFds, Done} <==> Given(s.replies, Ok))
      && (s.server.fdsAllowed <==> Given(s.replies, AgreeUnixFd))
      && (s.server.fdsAllowed ==> Given(s.replies, Ok))
      && (s.server.state == Done <==> lines != [] && s.replies[|lines| - 1] == Silence)
  {
    if lines != [] {
      AuthenticatedIffOk(uid, lines[..|lines| - 1]);
      var before := Run(uid, lines[..|lines| - 1]).value;
      StepByReply(before.server, uid, lines[|lines| - 1]);
      hide Step;
      hide Given;
      var (after, r) := Step(before.server, uid, lines[|lines| - 1]);
      GivenMore(before.replies, Ok, r);
      GivenMore(before.replies, AgreeUnixFd, r);
    }
  }

  // ---------------------------------------------------------------- what OK stands for

  predicate AllErrors(replies: seq<Reply>, from: nat) {
    forall j :: from <= j < |replies| ==> replies[j] == Error
  }

  // reply k asked for data, and the client only made errors since
  ghost predicate AskedAt(replies: seq<Reply>, k: nat) {
    k < |replies| && replies[k] == Data && AllErrors(replies, k + 1)
  }

  // The zero byte is expected in front of every line until one is understood.
  lemma {:induction false} StateFromReplies(uid: nat, lines: seq<string>)
    requires Run(uid, lines).Some?
    ensures var s := Run(uid, lines).value;
      && |s.replies| == |lines|
      && (s.server.fdsAllowed ==> s.server.state in {Authenticated, NegotiatedFds, Done})
      && (s.server.state == Init <==> AllErrors(s.replies, 0))
      && (s.server.state == Challenge ==> exists k: nat :: AskedAt(s.replies, k))
  {
    if lines != [] {
      StateFromReplies(uid, lines[..|lines| - 1]);
      var before := Run(uid, lines[..|lines| - 1]).value;
      StepByReply(before.server, uid, lines[|lines| - 1]);
      hide Step;
      var (after, r) := Step(before.server, uid, lines[|lines| - 1]);
      var replies := before.replies + [r];
      assert replies[|before.replies|] == r;
      assert AllErrors(replies, 0) <==> AllErrors(before.replies, 0) && r == Error by {
        assert AllErrors(replies, 0) ==> forall j :: 0 <= j < |before.replies| ==> replies[j] == before.replies[j];
      }
      if after.state == Challenge {
        if r == Data {
          assert AskedAt(replies, |before.replies|);
        } else {
          var k: nat :| AskedAt(before.replies, k);
          assert AskedAt(replies, k);
        }
      }
    }
  }

  // a line without the zero byte that comes before the exchange
  function Sent(replies: seq<Reply>, line: string): string {
    if AllErrors(replies, 0) && line != "" then line[1..] else line
  }

  // OK answers a correct credential, or an empty one that was asked for.
  lemma OkNeedsCredential(uid: nat, lines: seq<string>, line: string)
    requires Run(uid, lines).Some?
    requires Step(Run(uid, lines).value.server, uid, line).1 == Ok
    ensures var replies := Run(uid, lines).value.replies; var c := Sent(replies, line);
      || (Command(c) == "AUTH" && Command(Argument(c)) == "EXTERNAL" && Argument(Argument(c)) == Credential(uid))
      || (Command(c) == "DATA" && (Argument(c) == "" || Argument(c) == Credential(uid))
          && exists k: nat ::
               k < |replies| && replies[k] == Data && forall j :: k < j < |replies| ==> replies[j] == Error)
  {
    StateFromReplies(uid, lines);
    var s := Run(uid, lines).value;
    if s.server.state == Init {
      CommandTail(line);
    }
    if s.server.state == Challenge {
      var k: nat :| AskedAt(s.replies, k);
      assert k < |s.replies| && s.replies[k] == Data;
    }
  }

  lemma CommandTail(line: string)
    requires Command(line) != ""
    ensures Command(line)[1..] == Command(line[1..]) && Argument(line) == Argument(line[1..])
  {
    assert line[|Command(line)|..] == line[1..][|Command(line[1..])|..];
  }

  lemma RunMore(uid: nat, lines: seq<string>, line: string)
    ensures Run(uid, lines + [line]) ==
      match Run(uid, lines)
      case None => None
      case Some(before) =>
        var (after, r) := Step(before.server, uid, line);
        if r == Violation then None else Some(Session(after, before.replies + [r]))
  {
    assert (lines + [line])[..|lines|] == lines;
  }

  // After an unknown command in the very first line, the server insists on a second zero byte.
  lemma SecondZeroByteExample(uid: nat)
    ensures Run(uid, [] + ["\0HELO"]) == Some(Session(FRESH, [Error]))
    ensures Run(uid, [] + ["\0HELO"] + ["AUTH EXTERNAL"]).None?
  {
    hide Command;
    hide Argument;
    RunMore(uid, [], "\0HELO");
    RunMore(uid, [] + ["\0HELO"], "AUTH EXTERNAL");
    SplitWord("\0HELO");
    SplitAt("AUTH EXTERNAL", 4);
    assert "\0HELO"[1..] == "HELO" && Step(FRESH, uid, "\0HELO") == (FRESH, Error);
    assert [] + [Error] == [Error];
  }

  lemma SplitWord(s: string)
    requires ' ' !in s
    ensures Command(s) == s && Argument(s) == ""
  {
    SplitFinds(s, 0, "");
    assert s + seq(0, _ => ' ') + "" == s;
  }

  lemma SplitAt(s: string, n: nat)
    requires n + 1 < |s| && s[n] == ' ' && s[n + 1] != ' ' && ' ' !in s[..n]
    ensures Command(s) == s[..n] && Argument(s) == s[n + 1..]
  {
    SplitFinds(s[..n], 1, s[n + 1..]);
    assert s[..n] + seq(1, _ => ' ') + s[n + 1..] == s;
  }

  // ---------------------------------------------------------------- client

  datatype ClientState = ClientInit | ClientDone | ClientAuth | ClientData | ClientUnixFd

  datatype ClientReply = Request | NoOutput | Failure | ClientViolation

  const REQUEST := ["\0AUTH EXTERNAL", "DATA", "NEGOTIATE_UNIX_FD", "BEGIN"]

  function ClientStep(state: ClientState, input: Option<string>): (ClientState, ClientReply) {
    match state
    case ClientInit => if input.Some? then (state, ClientViolation) else (ClientAuth, Request)
    case _ =>
      match input
      case None => (state, if state == ClientDone then ClientViolation else NoOutput)
      case Some(line) =>
        match state
        case ClientAuth =>
          if Command(line) != "DATA" then (state, Failure)
          else if Argument(line) != "" then (state, ClientViolation)
          else (ClientData, NoOutput)
        case ClientData =>
          if Command(line) != "OK" then (state, Failure)
          else if |Argument(line)| != 32 then (state, ClientViolation)
          else (ClientUnixFd, NoOutput)
        case ClientUnixFd =>
          if Command(line) != "AGREE_UNIX_FD" then (state, Failure)
          else if Argument(line) != "" then (state, ClientViolation)
          else (ClientDone, NoOutput)
        case _ => (state, ClientViolation)
  }

  // The client begins when it has no input, goes on with each answer it expects, and gives up on others.
  lemma ClientIs(state: ClientState, line: string)
    ensures ClientStep(ClientInit, None) == (ClientAuth, Request)
    ensures state !in {ClientInit, ClientDone} ==> ClientStep(state, None) == (state, NoOutput)
    ensures state in {ClientInit, ClientDone} ==> ClientStep(state, Some(line)) == (state, ClientViolation)
    ensures state !in {ClientInit, ClientDone} ==>
      var expected := if state == ClientAuth then "DATA" else if state == ClientData then "OK" else "AGREE_UNIX_FD";
      var size := if state == ClientData then 32 else 0;
      ClientStep(state, Some(line)) ==
        if Command(line) != expected then (state, Failure)
        else if |Argument(line)| != size then (state, ClientViolation)
        else (if state == ClientAuth then ClientData else if state == ClientData then ClientUnixFd else ClientDone,
              NoOutput)
  {
    hide Command;
    hide Argument;
  }

  class SaslClient {
    var state: ClientState

    // sasl_client_init()
    constructor ()
      ensures state == ClientInit
    {
      state := ClientInit;
    }

    // sasl_client_dispatch(); no input starts the exchange
    method Dispatch(input: Option<string>) returns (r: ClientReply)
      requires state != ClientDone
      modifies this
      ensures (state, r) == ClientStep(old(state), input)
    {
      var cmd, arg := Split(if input.Some? then input.value else "");
      match state
      case ClientInit =>
        if input.Some? {
          return ClientViolation;
        }
        state := ClientAuth;
        return Request;
      case ClientAuth =>
        if input.None? {
          return NoOutput;
        }
        if cmd != "DATA" {
          return Failure;
        }
        if arg != "" {
          return ClientViolation;
        }
        state := ClientData;
        return NoOutput;
      case ClientData =>
        if input.None? {
          return NoOutput;
        }
        if cmd != "OK" {
          return Failure;
        }
        if |arg| != 32 {
          return ClientViolation;
        }
        state := ClientUnixFd;
        return NoOutput;
      case ClientUnixFd =>
        if input.None? {
          return NoOutput;
        }
        if cmd != "AGREE_UNIX_FD" {
          return Failure;
        }
        if arg != "" {
          return ClientViolation;
        }
        state := ClientDone;
        return NoOutput;
    }
  }

  // ---------------------------------------------------------------- both ends

  // a client and a server with the lines that are on their way
  datatype Exchange = Exchange(toServer: seq<string>, toClient: seq<string>, server: Server, client: ClientState)

  const BEGUN := Exchange(REQUEST, [], FRESH, ClientAuth)

  // One side reads its next line, if there is one; None if it gives up.
  function Deliver(x: Exchange, serverReads: bool, uid: nat, okResponse: string): Option<Exchange> {
    if serverReads then
      if x.toServer == [] then Some(x)
      else
        var (s, r) := Step(x.server, uid, x.toServer[0]);
        if r == Violation then None
        else Some(Exchange(x.toServer[1..], x.toClient + Answer(r, okResponse), s, x.client))
    else
      if x.toClient == [] then Some(x)
      else
        var (c, r) := ClientStep(x.client, Some(x.toClient[0]));
        if r == Failure || r == ClientViolation then None
        else Some(x.(toClient := x.toClient[1..], client := c))
  }

  function Deliveries(schedule: seq<bool>, uid: nat, okResponse: string): Option<Exchange> {
    if schedule == [] then Some(BEGUN)
    else
      match Deliveries(schedule[..|schedule| - 1], uid, okResponse)
      case None => None
      case Some(x) => Deliver(x, schedule[|schedule| - 1], uid, okResponse)
  }

  // the server has read i lines and the client j
  function Stage(i: nat, j: nat, okResponse: string): Exchange
    requires j <= i <= 4 && j <= 3
  {
    Exchange(REQUEST[i..], ["DATA", okResponse, "AGREE_UNIX_FD"][j..if i < 3 then i else 3],
             [FRESH, Server(Challenge, false), Server(Authenticated, false), Server(NegotiatedFds, true),
               Server(Done, true)][i],
             [ClientAuth, ClientData, ClientUnixFd, ClientDone][j])
  }

  predicate OkResponse(s: string) {
    |s| == 35 && s[..3] == "OK " && s[3] != ' '
  }

  lemma RequestSteps(uid: nat)
    ensures Step(FRESH, uid, REQUEST[0]) == (Server(Challenge, false), Data)
    ensures Step(Server(Challenge, false), uid, REQUEST[1]) == (Server(Authenticated, false), Ok)
    ensures Step(Server(Authenticated, false), uid, REQUEST[2]) == (Server(NegotiatedFds, true), AgreeUnixFd)
    ensures Step(Server(NegotiatedFds, true), uid, REQUEST[3]) == (Server(Done, true), Silence)
  {
    hide Command;
    hide Argument;
    SplitAt("\0AUTH EXTERNAL", 5);
    SplitWord("EXTERNAL");
    SplitWord("DATA");
    SplitWord("NEGOTIATE_UNIX_FD");
    SplitWord("BEGIN");
  }

  lemma AnswerSteps(okResponse: string)
    requires OkResponse(okResponse)
    ensures ClientStep(ClientAuth, Some("DATA")) == (ClientData, NoOutput)
    ensures ClientStep(ClientData, Some(okResponse)) == (ClientUnixFd, NoOutput)
    ensures ClientStep(ClientUnixFd, Some("AGREE_UNIX_FD")) == (ClientDone, NoOutput)
  {
    hide Command;
    hide Argument;
    SplitWord("DATA");
    SplitAt(okResponse, 2);
    SplitWord("AGREE_UNIX_FD");
  }

  lemma ServerStage(i: nat, j: nat, uid: nat, okResponse: string)
    requires j <= i < 4 && j <= 3
    ensures Deliver(Stage(i, j, okResponse), true, uid, okResponse) == Some(Stage(i + 1, j, okResponse))
  {
    RequestSteps(uid);
    hide Step;
    var line := REQUEST[i];
    var x, y := Stage(i, j, okResponse), Stage(i + 1, j, okResponse);
    var (s, r) := Step(x.server, uid, line);
    assert s == y.server && r == [Data, Ok, AgreeUnixFd, Silence][i];
    assert x.toServer[1..] == y.toServer && x.toServer[0] == line;
    assert x.toClient + Answer(r, okResponse) == y.toClient;
  }

  lemma ClientStage(i: nat, j: nat, uid: nat, okResponse: string)
    requires j < i <= 4 && j < 3 && OkResponse(okResponse)
    ensures Deliver(Stage(i, j, okResponse), false, uid, okResponse) == Some(Stage(i, j + 1, okResponse))
  {
    AnswerSteps(okResponse);
    hide ClientStep;
    var x, y := Stage(i, j, okResponse), Stage(i, j + 1, okResponse);
    assert x.toClient[0] == ["DATA", okResponse, "AGREE_UNIX_FD"][j] && x.toClient[1..] == y.toClient;
  }

  // Whatever the order in which the two sides read, neither gives up, and when nothing is on its
  // way any more both are done and agree on passing file descriptors.
  lemma {:induction false} PipeliningSucceeds(schedule: seq<bool>, uid: nat, okResponse: string)
    returns (i: nat, j: nat)
    requires OkResponse(okResponse)
    ensures j <= i <= 4 && j <= 3
    ensures Deliveries(schedule, uid, okResponse) == Some(Stage(i, j, okResponse))
    ensures var x := Deliveries(schedule, uid, okResponse).value;
      x.toServer == [] && x.toClient == [] <==> x.server == Server(Done, true) && x.client == ClientDone
  {
    i, j := 0, 0;
    if schedule == [] {
      assert BEGUN == Stage(0, 0, okResponse);
    } else {
      i, j := PipeliningSucceeds(schedule[..|schedule| - 1], uid, okResponse);
      if schedule[|schedule| - 1] && i < 4 {
        ServerStage(i, j, uid, okResponse);
        i := i + 1;
      } else if !schedule[|schedule| - 1] && j < i && j < 3 {
        ClientStage(i, j, uid, okResponse);
        j := j + 1;
      }
    }
  }
}
