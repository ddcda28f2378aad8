/**
 * The receive loop of `handle_client` (server.py:76-101) and the accept
 * loop of `main` (server.py:123-138), on a registry whose locked blocks
 * are single steps. What `recv` yields is an `Event`: a decoded message
 * (the empty text when the peer closed), a reset, or any other error. The
 * texts the server sends are returned in order instead of being written to
 * a socket.
 */
module Session {
  import opened Text
  import opened Values
  import opened Commands
  import opened Registry

  /** One outcome of `client_socket.recv(1024).decode()`. */
  datatype Event =
    | Received(text: string)  // a message; `""` when the peer closed the connection
    | ConnectionReset         // `except ConnectionResetError`
    | ReadError               // `except Exception`

  /** The events that leave the loop: an empty read, `exit` in any case, a reset or an error. */
  predicate Ends(e: Event) {
    match e
    case Received(m) => Classify(m).Terminate?
    case _ => true
  }

  /** The loop ends on a reset, an error, an empty read or `exit` in any case, and on nothing else. */
  lemma EndsExactly(e: Event)
    ensures Ends(e) <==> !e.Received? || e.text == "" || Lower(e.text) == "exit"
  {
  }

  /** The response to an event that does not end the loop. */
  function EventResponse(e: Event, status: string, repo: Repository): string
    requires !Ends(e)
  {
    Respond(Classify(e.text), status, repo)
  }

  /**
   * The answer to a message, by what its lower-case form is: the report for
   * `status`, the list for `list`, the file named by the rest of the
   * message for `print `, and the message with ` ACK` otherwise.
   */
  lemma EventResponseCases(e: Event, status: string, repo: Repository)
    requires !Ends(e)
    ensures var r := EventResponse(e, status, repo);
            && (Lower(e.text) == "status" ==> r == status)
            && (Lower(e.text) == "list" ==> r == ListResponse(repo.listing))
            && (StartsWith(Lower(e.text), PRINT_PREFIX) ==> r == PrintResponse(repo.files, e.text[|PRINT_PREFIX|..]))
            && (Classify(e.text).Echo? ==> r == e.text + " ACK")
  {
  }

  /**
   * The responses for `events` up to the first event that ends the loop;
   * `status` is the report `send_status` produces while this session runs.
   */
  function Transcript(events: seq<Event>, status: string, repo: Repository): (r: seq<string>)
    ensures |r| <= |events|
  {
    if events == [] || Ends(events[0]) then []
    else [EventResponse(events[0], status, repo)] + Transcript(events[1..], status, repo)
  }

  /**
   * The transcript stops exactly at the first event that ends the loop: no
   * event it answers ends the loop, and the one after them does (unless the
   * events ran out).
   */
  lemma {:induction false} TranscriptStopsAtEnd(events: seq<Event>, status: string, repo: Repository)
    ensures var n := |Transcript(events, status, repo)|;
            && (forall j :: 0 <= j < n ==> !Ends(events[j]))
            && (n < |events| ==> Ends(events[n]))
  {
    if events != [] && !Ends(events[0]) {
      TranscriptStopsAtEnd(events[1..], status, repo);
      var n := |Transcript(events, status, repo)|;
      assert n == |Transcript(events[1..], status, repo)| + 1;
      forall j | 1 <= j < n ensures !Ends(events[j]) {
        assert events[1..][j - 1] == events[j];
      }
      if n < |events| {
        assert events[1..][n - 1] == events[n];
      }
    }
  }

  /** The `j`-th response answers the `j`-th event. */
  lemma {:induction false} TranscriptAt(events: seq<Event>, j: nat, status: string, repo: Repository)
    requires j < |Transcript(events, status, repo)|
    ensures !Ends(events[j]) && Transcript(events, status, repo)[j] == EventResponse(events[j], status, repo)
    decreases j
  {
    if j > 0 {
      TranscriptAt(events[1..], j - 1, status, repo);
      assert events[1..][j - 1] == events[j];
    }
  }

  /** Whatever follows the event that ends the loop is never read. */
  lemma {:induction false} TranscriptIgnoresAfterEnd(events: seq<Event>, k: nat, later: seq<Event>, status: string, repo: Repository)
    requires k < |events| && Ends(events[k])
    ensures Transcript(events[..k + 1] + later, status, repo) == Transcript(events, status, repo)
  {
    if k > 0 && !Ends(events[0]) {
      assert (events[..k + 1] + later)[1..] == events[1..][..k] + later;
      TranscriptIgnoresAfterEnd(events[1..], k - 1, later, status, repo);
    }
  }

  /** The transcript from an event that does not end the loop: its response, then the rest. */
  lemma TranscriptStep(events: seq<Event>, i: nat, status: string, repo: Repository)
    requires i < |events| && !Ends(events[i])
    ensures Transcript(events[i..], status, repo) ==
            [EventResponse(events[i], status, repo)] + Transcript(events[i + 1..], status, repo)
  {
    assert events[i..][1..] == events[i + 1..];
  }

  /**
   * The dispatch of one command that does not end the loop (server.py:87-95):
   * the status report of the registry as it is now, the file list, the file
   * or the echo.
   */
  method Answer(reg: Registry, e: Event, repo: Repository) returns (response: string)
    requires !Ends(e)
    ensures response == EventResponse(e, StatusReport(reg.history), repo)
  {
    match Classify(e.text) {
      case Status => response := reg.Status();
      case List => response := ListResponse(repo.listing);
      case Print(file) => response := PrintResponse(repo.files, file);
      case Echo(text) => response := EchoResponse(text);
    }
  }

  /**
   * One session from registration to cleanup: the loop answers each message
   * until one ends it, reading the status report from `reg` when asked, and
   * the cleanup block runs once when the loop has ended. Events that are
   * used up without an ending leave the session blocked in `recv`, still
   * registered.
   */
  method RunSession(reg: Registry, name: string, events: seq<Event>, repo: Repository, t: Timestamp)
    returns (responses: seq<string>, ended: bool)
    requires reg.Valid() && name in reg.live
    modifies reg
    ensures reg.Valid()
    ensures responses == Transcript(events, StatusReport(old(reg.history)), repo)
    ensures ended <==> exists j :: 0 <= j < |events| && Ends(events[j])
    ensures ended ==> reg.live == old(reg.live) - {name} && reg.history == Stamped(old(reg.history), name, t)
    ensures !ended ==> reg.live == old(reg.live) && reg.history == old(reg.history)
  {
    ghost var status := StatusReport(reg.history);
    responses := [];
    var i := 0;
    while i < |events| && !Ends(events[i])
      invariant 0 <= i <= |events|
      invariant forall j :: 0 <= j < i ==> !Ends(events[j])
      invariant responses + Transcript(events[i..], status, repo) == Transcript(events, status, repo)
      invariant reg.live == old(reg.live) && reg.history == old(reg.history)
    {
      var response := Answer(reg, events[i], repo);
      TranscriptStep(events, i, status, repo);
      responses := responses + [response];
      i := i + 1;
    }
    ended := i < |events|;
    if ended {
      assert events[i..][0] == events[i];
      reg.Disconnect(name, t);
    } else {
      assert events[i..] == [];
    }
  }

  /**
   * One accepted connection, from `accept()` to cleanup: rejected with the
   * fixed text when the registry is full, otherwise welcomed under its new
   * name and then served. `sent` is every text the server sends on it, and
   * `ended` says whether the session's loop ended and its cleanup ran.
   */
  method Connect(reg: Registry, address: Address, connectedAt: Timestamp, events: seq<Event>,
                 repo: Repository, disconnectedAt: Timestamp)
    returns (admitted: bool, sent: seq<string>, ended: bool)
    requires reg.Valid()
    modifies reg
    ensures reg.Valid()
    ensures admitted <==> |old(reg.live)| < MAX_CLIENTS
    ensures !admitted ==> sent == [REJECTION] && !ended && reg.live == old(reg.live) && reg.history == old(reg.history)
    ensures admitted ==> Served(old(reg.history), old(reg.live), Info(address, connectedAt, None), events, repo,
                                disconnectedAt, sent, ended, reg.history, reg.live)
  {
    var greeting;
    var name := EntryName(|reg.history|);
    ghost var before, live0 := reg.history, reg.live;
    admitted, greeting := reg.TryAdmit(address, connectedAt);
    if admitted {
      var responses;
      responses, ended := RunSession(reg, name, events, repo, disconnectedAt);
      sent := [greeting] + responses;
      ServedStep(before, live0, Info(address, connectedAt, None), events, repo, disconnectedAt,
                 greeting, responses, ended, reg.history, reg.live);
    } else {
      sent := [greeting];
      ended := false;
    }
  }

  /**
   * What an admitted connection leaves behind, from the registry `history0`,
   * `live0` it found: the new name was unused; the welcome naming it, then
   * the transcript of its events against the report that includes its own
   * entry, were sent; and, when the loop ended, its entry is stamped and it
   * is no longer live, otherwise it is still live with an open entry. Every
   * earlier entry is as it was.
   */
  ghost predicate Served(history0: seq<Info>, live0: map<string, Info>, info: Info, events: seq<Event>,
                         repo: Repository, t: Timestamp, sent: seq<string>, ended: bool,
                         history: seq<Info>, live: map<string, Info>)
  {
    var name := EntryName(|history0|);
    var registered := history0 + [info];
    && name !in live0
    && sent == [WELCOME + name] + Transcript(events, StatusReport(registered), repo)
    && (ended <==> exists j :: 0 <= j < |events| && Ends(events[j]))
    && (ended ==> history == Stamped(registered, name, t) && live == live0)
    && (!ended ==> history == registered && live == live0[name := info])
    && |history| == |history0| + 1
    && history[..|history0|] == history0
  }

  /** Admission followed by a session, on the values `TryAdmit` and `RunSession` promise. */
  lemma ServedStep(history0: seq<Info>, live0: map<string, Info>, info: Info, events: seq<Event>,
                   repo: Repository, t: Timestamp, greeting: string, responses: seq<string>, ended: bool,
                   history: seq<Info>, live: map<string, Info>)
    requires EntryName(|history0|) !in live0
    requires greeting == WELCOME + EntryName(|history0|)
    requires responses == Transcript(events, StatusReport(history0 + [info]), repo)
    requires ended <==> exists j :: 0 <= j < |events| && Ends(events[j])
    requires ended ==> live == live0[EntryName(|history0|) := info] - {EntryName(|history0|)} &&
                       history == Stamped(history0 + [info], EntryName(|history0|), t)
    requires !ended ==> live == live0[EntryName(|history0|) := info] && history == history0 + [info]
    ensures Served(history0, live0, info, events, repo, t, [greeting] + responses, ended, history, live)
  {
    var name := EntryName(|history0|);
    StampedKeepsOthers(history0 + [info], name, t);
    assert live0[name := info] - {name} == live0;
    assert (history0 + [info])[..|history0|] == history0;
  }

  /** Stamping the newest session's entry leaves every earlier entry as it was. */
  lemma StampedKeepsOthers(history: seq<Info>, name: string, t: Timestamp)
    requires |history| >= 1 && name == EntryName(|history| - 1)
    ensures Stamped(history, name, t)[..|history| - 1] == history[..|history| - 1]
  {
    forall i | 0 <= i < |history| - 1 ensures Stamped(history, name, t)[i] == history[i] {
      ClientNameInjective(i + 1, |history|);
    }
  }

  /**
   * The accept loop of `main` when no session ends in between: the
   * connections are admitted while fewer than `MAX_CLIENTS` sessions are
   * live and then rejected, and each admitted one is registered under the
   * next name.
   */
  method AcceptAll(reg: Registry, arrivals: seq<(Address, Timestamp)>) returns (replies: seq<string>)
    requires reg.Valid()
    modifies reg
    ensures reg.Valid()
    ensures |replies| == |arrivals|
    ensures var free := MAX_CLIENTS - |old(reg.live)|;
            forall j :: 0 <= j < |arrivals| ==>
              replies[j] == if j < free then WELCOME + EntryName(|old(reg.history)| + j) else REJECTION
    ensures var admitted := Admitted(MAX_CLIENTS - |old(reg.live)|, |arrivals|);
            && |reg.live| == |old(reg.live)| + admitted
            && reg.history == old(reg.history) + Opened(arrivals[..admitted])
  {
    replies := [];
    var i := 0;
    ghost var start := reg.history;
    ghost var free := MAX_CLIENTS - |reg.live|;
    while i < |arrivals|
      invariant 0 <= i <= |arrivals|
      invariant AcceptedSoFar(reg, arrivals, i, start, MAX_CLIENTS - free, free, replies)
    {
      replies := AcceptNext(reg, arrivals, i, start, MAX_CLIENTS - free, free, replies);
      i := i + 1;
    }
    RepliesAt(free, |start|, i);
  }

  /**
   * The registry after the first `i` connections of `arrivals`, starting
   * from `start` with `live0` live sessions and `free` open places.
   */
  ghost predicate AcceptedSoFar(reg: Registry, arrivals: seq<(Address, Timestamp)>, i: nat, start: seq<Info>,
                                live0: nat, free: int, replies: seq<string>)
    reads reg
  {
    && i <= |arrivals| && free >= 0 && live0 + free == MAX_CLIENTS
    && reg.Valid()
    && |reg.live| == live0 + Admitted(free, i)
    && reg.history == start + Opened(arrivals[..Admitted(free, i)])
    && replies == Replies(free, |start|, i)
  }

  /** One pass of the accept loop: the next connection is admitted or rejected. */
  method AcceptNext(reg: Registry, arrivals: seq<(Address, Timestamp)>, i: nat, ghost start: seq<Info>,
                    ghost live0: nat, ghost free: int, replies: seq<string>)
    returns (replies': seq<string>)
    requires i < |arrivals|
    requires AcceptedSoFar(reg, arrivals, i, start, live0, free, replies)
    modifies reg
    ensures AcceptedSoFar(reg, arrivals, i + 1, start, live0, free, replies')
  {
    ghost var before := reg.history;
    var admitted, greeting := reg.TryAdmit(arrivals[i].0, arrivals[i].1);
    AcceptStep(arrivals, i, free, start, before, reg.history, admitted, greeting);
    replies' := replies + [greeting];
  }

  /** How many of `n` connections are admitted when `free` places are open. */
  function Admitted(free: int, n: nat): (k: nat)
    requires free >= 0
    ensures k <= n && k <= free && (k == n || k == free)
  {
    if n <= free then n else free
  }

  /** One pass of the accept loop, on the values `TryAdmit` promises. */
  lemma AcceptStep(arrivals: seq<(Address, Timestamp)>, i: nat, free: int, start: seq<Info>,
                   before: seq<Info>, after: seq<Info>, admitted: bool, greeting: string)
    requires i < |arrivals| && free >= 0
    requires before == start + Opened(arrivals[..Admitted(free, i)])
    requires admitted <==> Admitted(free, i) < free
    requires !admitted ==> greeting == REJECTION && after == before
    requires admitted ==> greeting == WELCOME + EntryName(|before|) &&
                          after == before + [Info(arrivals[i].0, arrivals[i].1, None)]
    ensures after == start + Opened(arrivals[..Admitted(free, i + 1)])
    ensures [greeting] == [Reply(free, |start|, i)]
  {
    if admitted {
      OpenedPrefix(arrivals, i);
    }
  }

  /** The reply to the `j`-th of the connections. */
  function Reply(free: int, next: nat, j: nat): string {
    if j < free then WELCOME + EntryName(next + j) else REJECTION
  }

  /** The replies to `n` connections when `free` places are open and the next entry is `next`. */
  function Replies(free: int, next: nat, n: nat): (r: seq<string>)
    ensures |r| == n
  {
    if n == 0 then [] else Replies(free, next, n - 1) + [Reply(free, next, n - 1)]
  }

  lemma {:induction false} RepliesAt(free: int, next: nat, n: nat)
    ensures forall j :: 0 <= j < n ==>
              Replies(free, next, n)[j] == if j < free then WELCOME + EntryName(next + j) else REJECTION
  {
    if n > 0 {
      RepliesAt(free, next, n - 1);
    }
  }

  /** The history entries registration opens for these connections, in order. */
  function Opened(arrivals: seq<(Address, Timestamp)>): (r: seq<Info>)
    ensures |r| == |arrivals|
  {
    if arrivals == [] then []
    else Opened(arrivals[..|arrivals| - 1]) + [Info(arrivals[|arrivals| - 1].0, arrivals[|arrivals| - 1].1, None)]
  }

  lemma OpenedPrefix(arrivals: seq<(Address, Timestamp)>, n: nat)
    requires n < |arrivals|
    ensures Opened(arrivals[..n + 1]) == Opened(arrivals[..n]) + [Info(arrivals[n].0, arrivals[n].1, None)]
  {
    assert arrivals[..n + 1][..n] == arrivals[..n];
  }
}
