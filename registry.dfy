/**
 * The session registry of server.py: the `clients` dictionary of live
 * sessions and the `client_history` dictionary of every admitted session,
 * both guarded by `clients_lock`. Each `with clients_lock:` block is one
 * method of `Registry`. The history is kept in insertion order, which is
 * the order `send_status` walks it in; entry `i` belongs to `EntryName(i)`.
 */
module Registry {
  import opened Text
  import opened Values

  /** server.py:11. */
  const MAX_CLIENTS: nat := 3

  const REJECTION := "Server is full. Please try again later."
  const WELCOME := "Welcome to the server "
  const STATUS_HEADER := "Connected clients history:\n"
  const STILL_CONNECTED := "Still connected"

  /** The value stored per session: `address`, `connected_at`, `disconnected_at`. */
  datatype Info = Info(address: Address, connectedAt: Timestamp, disconnectedAt: Option<Timestamp>)

  /** `f"Client{k:02d}"`: the name given to the `k`-th admitted session. */
  function ClientName(k: nat): (r: string)
    ensures |r| >= 8
  {
    "Client" + Pad(k, 2)
  }

  /** The name of history entry `i`, the session admitted `(i + 1)`-th. */
  function EntryName(i: nat): string {
    ClientName(i + 1)
  }

  /** No two sessions of one run share a name. */
  lemma ClientNameInjective(i: nat, j: nat)
    ensures ClientName(i) == ClientName(j) ==> i == j
  {
    if ClientName(i) == ClientName(j) {
      assert ClientName(i)[6..] == Pad(i, 2);
      assert ClientName(j)[6..] == Pad(j, 2);
      PadInjective(i, j, 2);
    }
  }

  /**
   * A name is `Client` and at least two digits; exactly two below 100; the
   * digits give back the session's number.
   */
  lemma ClientNameShape(k: nat)
    ensures StartsWith(ClientName(k), "Client")
    ensures |ClientName(k)| >= 8
    ensures |ClientName(k)| == 8 <==> k < 100
    ensures AllDigits(ClientName(k)[6..]) && ParseDecimal(ClientName(k)[6..]) == k
  {
    assert ClientName(k)[6..] == Pad(k, 2);
    PadLength(k, 2);
    PadRoundTrip(k, 2);
    PadDigits(k, 2);
  }

  lemma ClientNameExamples()
    ensures ClientName(1) == "Client01" && ClientName(9) == "Client09"
    ensures ClientName(10) == "Client10" && ClientName(100) == "Client100"
  {
    assert Decimal(10) == Decimal(1) + ['0'];
    assert Decimal(100) == Decimal(10) + ['0'];
  }

  /** The names of the first `count` history entries. */
  ghost function Names(count: nat): set<string> {
    if count == 0 then {} else Names(count - 1) + {EntryName(count - 1)}
  }

  /** Every name of the first `count` entries gives back its index: the digits after `Client`, less one. */
  lemma {:induction false} NamesIndex(count: nat, n: string)
    requires n in Names(count)
    ensures |n| >= 6
    ensures var k := ParseDecimal(n[6..]) - 1; 0 <= k < count && n == EntryName(k)
  {
    if n == EntryName(count - 1) {
      ClientNameShape(count);
    } else {
      NamesIndex(count - 1, n);
    }
  }

  /** The name of entry `count` is not among the names of the entries before it. */
  lemma NamesFresh(count: nat)
    ensures EntryName(count) !in Names(count)
  {
    if EntryName(count) in Names(count) {
      NamesIndex(count, EntryName(count));
      ClientNameShape(count + 1);
    }
  }

  /**
   * The invariant every locked block keeps: every live name is a history
   * name, a history entry is still open (`disconnected_at` is `None`)
   * exactly when its name is live, and a live entry equals its history copy.
   */
  ghost predicate Consistent(history: seq<Info>, live: map<string, Info>) {
    && live.Keys <= Names(|history|)
    && (forall i :: 0 <= i < |history| ==> (EntryName(i) in live <==> history[i].disconnectedAt.None?))
    && (forall i :: 0 <= i < |history| && EntryName(i) in live ==> live[EntryName(i)] == history[i])
  }

  /** The history after the session `name` ended at `t`: its entry is stamped, the others are as they were. */
  function Stamped(history: seq<Info>, name: string, t: Timestamp): (h: seq<Info>)
    ensures |h| == |history|
  {
    seq(|history|, i requires 0 <= i < |history| =>
      if EntryName(i) == name then history[i].(disconnectedAt := Some(t)) else history[i])
  }

  /** The next name is new: it is neither live nor the name of an earlier entry. */
  lemma FreshName(history: seq<Info>, live: map<string, Info>)
    requires Consistent(history, live)
    ensures forall i :: 0 <= i < |history| ==> EntryName(i) != EntryName(|history|)
    ensures EntryName(|history|) !in live
  {
    forall i | 0 <= i < |history| ensures EntryName(i) != EntryName(|history|) {
      ClientNameInjective(i + 1, |history| + 1);
    }
    NamesFresh(|history|);
  }

  /** Registration (server.py:61-71) keeps the invariant and makes the live set one larger. */
  lemma RegisterPreserves(history: seq<Info>, live: map<string, Info>, info: Info)
    requires Consistent(history, live)
    requires info.disconnectedAt.None?
    ensures var name := EntryName(|history|);
            && name !in live
            && Consistent(history + [info], live[name := info])
            && |live[name := info]| == |live| + 1
  {
    FreshName(history, live);
    RegisterKeepsNames(history, live, info, live[EntryName(|history|) := info]);
    RegisterKeepsEntries(history, live, info);
  }

  /** After registration every live name is still the name of a history entry. */
  lemma RegisterKeepsNames(history: seq<Info>, live: map<string, Info>, info: Info, l: map<string, Info>)
    requires Consistent(history, live)
    requires l == live[EntryName(|history|) := info]
    ensures l.Keys <= Names(|history| + 1)
  {
    assert Names(|history| + 1) == Names(|history|) + {EntryName(|history|)};
  }

  /** After registration an entry is open exactly when live, and a live entry equals its history copy. */
  lemma RegisterKeepsEntries(history: seq<Info>, live: map<string, Info>, info: Info)
    requires Consistent(history, live)
    requires info.disconnectedAt.None?
    ensures var name := EntryName(|history|);
            var h, l := history + [info], live[name := info];
            forall i :: 0 <= i < |h| ==>
              && (EntryName(i) in l <==> h[i].disconnectedAt.None?)
              && (EntryName(i) in l ==> l[EntryName(i)] == h[i])
  {
    FreshName(history, live);
    var name := EntryName(|history|);
    var h, l := history + [info], live[name := info];
    forall i | 0 <= i < |h|
      ensures (EntryName(i) in l <==> h[i].disconnectedAt.None?)
      ensures EntryName(i) in l ==> l[EntryName(i)] == h[i]
    {
      if i < |history| {
        assert EntryName(i) != name;
        assert h[i] == history[i];
      }
    }
  }

  /** A live name gives back its history index: the digits after `Client`, less one. */
  lemma LiveNameIndex(history: seq<Info>, live: map<string, Info>, name: string)
    requires Consistent(history, live)
    requires name in live
    ensures |name| >= 6
    ensures var k := ParseDecimal(name[6..]) - 1; 0 <= k < |history| && name == EntryName(k)
  {
    NamesIndex(|history|, name);
  }

  /** The cleanup block's three updates, as one step on the two dictionaries. */
  lemma DisconnectStep(history: seq<Info>, live: map<string, Info>, name: string, t: Timestamp, k: nat,
                       history': seq<Info>, live': map<string, Info>)
    requires Consistent(history, live)
    requires name in live && k < |history| && name == EntryName(k)
    requires live' == live[name := live[name].(disconnectedAt := Some(t))] - {name}
    requires history' == history[k := history[k].(disconnectedAt := Some(t))]
    ensures live' == live - {name}
    ensures history' == Stamped(history, name, t)
    ensures Consistent(history', live')
    ensures |live'| == |live| - 1
  {
    DisconnectPreserves(history, live, name, t);
    StampedAt(history, k, name, t);
    assert live[name := live[name].(disconnectedAt := Some(t))] - {name} == live - {name};
  }

  /** Stamping by name changes exactly the entry of that name. */
  lemma StampedAt(history: seq<Info>, k: nat, name: string, t: Timestamp)
    requires k < |history| && name == EntryName(k)
    ensures Stamped(history, name, t) == history[k := history[k].(disconnectedAt := Some(t))]
  {
    forall i | 0 <= i < |history|
      ensures Stamped(history, name, t)[i] == history[k := history[k].(disconnectedAt := Some(t))][i]
    {
      ClientNameInjective(i + 1, k + 1);
    }
  }

  /** Cleanup (server.py:104-108) keeps the invariant and makes the live set one smaller. */
  lemma DisconnectPreserves(history: seq<Info>, live: map<string, Info>, name: string, t: Timestamp)
    requires Consistent(history, live)
    requires name in live
    ensures Consistent(Stamped(history, name, t), live - {name})
    ensures |live - {name}| == |live| - 1
  {
    NamesIndex(|history|, name);
    DisconnectKeepsEntries(history, live, name, ParseDecimal(name[6..]) - 1, t);
    assert (live - {name}).Keys == live.Keys - {name};
  }

  /** After cleanup an entry is open exactly when live, and a live entry equals its history copy. */
  lemma DisconnectKeepsEntries(history: seq<Info>, live: map<string, Info>, name: string, k: nat, t: Timestamp)
    requires Consistent(history, live)
    requires k < |history| && name == EntryName(k)
    ensures var h, l := Stamped(history, name, t), live - {name};
            forall i :: 0 <= i < |h| ==>
              && (EntryName(i) in l <==> h[i].disconnectedAt.None?)
              && (EntryName(i) in l ==> l[EntryName(i)] == h[i])
  {
    var h, l := Stamped(history, name, t), live - {name};
    forall i | 0 <= i < |history|
      ensures (EntryName(i) in l <==> h[i].disconnectedAt.None?)
      ensures EntryName(i) in l ==> l[EntryName(i)] == h[i]
    {
      ClientNameInjective(i + 1, k + 1);
    }
  }

  /** `info['disconnected_at'] if info['disconnected_at'] else "Still connected"`, as text. */
  function DisconnectedText(d: Option<Timestamp>): (r: string)
    ensures r == STILL_CONNECTED <==> d.None?
    ensures NoNewline(r)
  {
    match d
    case None => STILL_CONNECTED
    case Some(t) =>
      assert t != STILL_CONNECTED by { assert !IsDigit(STILL_CONNECTED[|STILL_CONNECTED| - 1]); }
      t
  }

  /** One line of the status report up to the connect time. */
  function StatusFront(k: nat, info: Info): string {
    ClientName(k) + ": Address: " + info.address + ", Connected at: " + info.connectedAt
  }

  /** One line of the status report, without its newline. */
  function StatusLine(k: nat, info: Info): (r: string)
    ensures StartsWith(r, ClientName(k) + ": Address: " + info.address)
  {
    StatusFront(k, info) + ", Disconnected at: " + DisconnectedText(info.disconnectedAt)
  }

  /** The lines the report shows: one per history entry, in insertion order. */
  function EntryLines(history: seq<Info>): (r: seq<string>)
    ensures |r| == |history|
  {
    seq(|history|, i requires 0 <= i < |history| => StatusLine(i + 1, history[i]))
  }

  /** The text `send_status` sends (server.py:24-30): the header, then every entry's line and newline. */
  function StatusReport(history: seq<Info>): (r: string)
    ensures StartsWith(r, STATUS_HEADER)
  {
    STATUS_HEADER + Terminated(EntryLines(history))
  }

  lemma StatusLineNoNewline(k: nat, info: Info)
    ensures NoNewline(StatusLine(k, info))
  {
    PadDigits(k, 2);
    assert NoNewline(ClientName(k));
    assert NoNewline(": Address: ") && NoNewline(", Connected at: ") && NoNewline(", Disconnected at: ");
    assert NoNewline(StatusFront(k, info));
  }

  /**
   * The status report is the header line, then exactly one line per
   * history entry in insertion order, then nothing after the last newline.
   */
  lemma StatusReportLines(history: seq<Info>)
    ensures Split(StatusReport(history)) == ["Connected clients history:"] + EntryLines(history) + [""]
  {
    var lines := EntryLines(history);
    forall i | 0 <= i < |lines| ensures NoNewline(lines[i]) {
      StatusLineNoNewline(i + 1, history[i]);
    }
    SplitTerminated("Connected clients history:", lines);
    assert STATUS_HEADER == "Connected clients history:" + "\n";
  }

  /** In a consistent registry, an entry's line reads "Still connected" exactly when its session is live. */
  lemma StatusShowsLive(history: seq<Info>, live: map<string, Info>, i: nat)
    requires Consistent(history, live)
    requires i < |history|
    ensures EndsWith(StatusLine(i + 1, history[i]), ", Disconnected at: " + STILL_CONNECTED)
            <==> EntryName(i) in live
  {
    var d := history[i].disconnectedAt;
    var front := StatusFront(i + 1, history[i]);
    var back := ", Disconnected at: " + DisconnectedText(d);
    var suffix := ", Disconnected at: " + STILL_CONNECTED;
    assert front + ", Disconnected at: " + DisconnectedText(d) == front + back;
    EndsWithLast(front, back, suffix);
    if d.Some? {
      var r := d.value;
      assert back[|back| - 1] == r[|r| - 1];
    }
  }

  class Registry {
    /** `clients`: the live sessions by name. */
    var live: map<string, Info>
    /** `client_history`: every admitted session, in insertion order. */
    var history: seq<Info>

    ghost predicate Valid()
      reads this
    {
      Consistent(history, live) && |live| <= MAX_CLIENTS
    }

    /** The empty registries at start-up (server.py:12-13). */
    constructor ()
      ensures Valid()
      ensures live == map[] && history == []
    {
      live := map[];
      history := [];
    }

    /**
     * The registration block of `handle_client` (server.py:61-71): the next
     * name is derived from the history's length and the entry enters both
     * dictionaries still open. The capacity precondition is what the
     * admission check establishes when check and registration are one step.
     */
    method Register(address: Address, t: Timestamp) returns (name: string)
      requires Valid()
      requires |live| < MAX_CLIENTS
      modifies this
      ensures Valid()
      ensures name == EntryName(|old(history)|)
      ensures name !in old(live)
      ensures forall i :: 0 <= i < |old(history)| ==> EntryName(i) != name
      ensures history == old(history) + [Info(address, t, None)]
      ensures live == old(live)[name := Info(address, t, None)]
      ensures |live| == |old(live)| + 1
    {
      var info := Info(address, t, None);
      name := EntryName(|history|);
      RegisterPreserves(history, live, info);
      FreshName(history, live);
      live := live[name := info];
      history := history + [info];
    }

    /**
     * One accepted connection (server.py:126-138 with the registration of
     * server.py:61-71 in the same step): admitted with a welcome naming the
     * new session when fewer than `MAX_CLIENTS` sessions are live, otherwise
     * rejected with the fixed text and nothing recorded.
     */
    method TryAdmit(address: Address, t: Timestamp) returns (admitted: bool, greeting: string)
      requires Valid()
      modifies this
      ensures Valid()
      ensures admitted <==> |old(live)| < MAX_CLIENTS
      ensures !admitted ==> greeting == REJECTION && live == old(live) && history == old(history)
      ensures admitted ==>
                && greeting == WELCOME + EntryName(|old(history)|)
                && history == old(history) + [Info(address, t, None)]
                && live == old(live)[EntryName(|old(history)|) := Info(address, t, None)]
                && EntryName(|old(history)|) !in old(live)
                && |live| == |old(live)| + 1
    {
      admitted := |live| < MAX_CLIENTS;
      if admitted {
        var name := Register(address, t);
        greeting := WELCOME + name;
      } else {
        greeting := REJECTION;
      }
    }

    /**
     * The cleanup block of `handle_client` (server.py:104-108): the
     * disconnect time is stamped into the session's entries and the session
     * leaves `clients`; its history entry stays.
     */
    method Disconnect(name: string, t: Timestamp)
      requires Valid()
      requires name in live
      modifies this
      ensures Valid()
      ensures live == old(live) - {name}
      ensures |live| == |old(live)| - 1
      ensures history == Stamped(old(history), name, t)
    {
      LiveNameIndex(history, live, name);
      var k := ParseDecimal(name[6..]) - 1;
      // Both dictionaries are stamped, then the live copy is deleted.
      var stampedLive := live[name := live[name].(disconnectedAt := Some(t))];
      var stampedHistory := history[k := history[k].(disconnectedAt := Some(t))];
      live, history := stampedLive - {name}, stampedHistory;
      DisconnectStep(old(history), old(live), name, t, k, history, live);
    }

    /** `send_status` (server.py:24-30): the header, then a line per history entry. */
    method Status() returns (report: string)
      ensures report == StatusReport(history)
    {
      report := STATUS_HEADER;
      ghost var lines := EntryLines(history);
      var i := 0;
      assert lines[..0] == [];
      assert report == STATUS_HEADER + Terminated(lines[..0]);
      while i < |history|
        invariant 0 <= i <= |history|
        invariant report == STATUS_HEADER + Terminated(lines[..i])
      {
        var line := StatusLine(i + 1, history[i]);
        assert line == lines[i];
        TerminatedSnoc(lines, i);
        Regroup(STATUS_HEADER, Terminated(lines[..i]), line, "\n");
        report := report + line + "\n";
        i := i + 1;
      }
      assert lines[..i] == lines;
    }
  }
}
