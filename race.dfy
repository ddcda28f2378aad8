/**
 * The admission check of `main` as the source runs it with threads. The
 * check (server.py:128) reads `len(clients)` under the lock, but the
 * session it admits is only added to `clients` later, by the handler
 * thread's own locked block (server.py:61-71). Connections accepted before
 * their predecessors' threads have registered all pass the check. The
 * model tracks only the two counts that decide it: the live sessions and
 * the threads started but not yet registered.
 */
module AdmissionRace {
  import opened Registry

  datatype Server = Server(live: nat, starting: nat)

  /** One pass of the accept loop as written: a thread is started when fewer than `MAX_CLIENTS` are live. */
  function AcceptAsWritten(s: Server): (r: (bool, Server))
    ensures r.0 <==> s.live < MAX_CLIENTS
    ensures r.1.live == s.live
  {
    if s.live < MAX_CLIENTS then (true, Server(s.live, s.starting + 1)) else (false, s)
  }

  /** A started thread runs its registration block: one more live session. */
  function RegisterOne(s: Server): (r: Server)
    requires s.starting > 0
    ensures r.live + r.starting == s.live + s.starting && r.starting < s.starting
  {
    Server(s.live + 1, s.starting - 1)
  }

  /** `k` connections accepted back to back, before any started thread registers. */
  function Burst(s: Server, k: nat): (r: Server)
    ensures r.live == s.live && r.starting >= s.starting
    decreases k
  {
    if k == 0 then s else Burst(AcceptAsWritten(s).1, k - 1)
  }

  /** Every started thread registers. */
  function RegisterAll(s: Server): (r: Server)
    ensures r.starting == 0 && r.live >= s.live
    decreases s.starting
  {
    if s.starting == 0 then s else RegisterAll(RegisterOne(s))
  }

  /** While no thread has registered, the check sees the same live count, so every connection of the burst is admitted. */
  lemma {:induction false} BurstAdmitsAll(s: Server, k: nat)
    requires s.live < MAX_CLIENTS
    ensures Burst(s, k) == Server(s.live, s.starting + k)
    decreases k
  {
    if k > 0 {
      BurstAdmitsAll(Server(s.live, s.starting + 1), k - 1);
    }
  }

  /** Registration turns every started thread into a live session. */
  lemma {:induction false} RegisterAllCounts(s: Server)
    ensures RegisterAll(s) == Server(s.live + s.starting, 0)
    decreases s.starting
  {
    if s.starting > 0 {
      RegisterAllCounts(RegisterOne(s));
    }
  }

  /**
   * From an empty server, a burst of `k` connections ends with `k` live
   * sessions, however large `k` is; with `MAX_CLIENTS + 1` of them the
   * capacity is exceeded.
   */
  lemma Overshoot(k: nat)
    ensures RegisterAll(Burst(Server(0, 0), k)).live == k
    ensures RegisterAll(Burst(Server(0, 0), MAX_CLIENTS + 1)).live > MAX_CLIENTS
  {
    BurstAdmitsAll(Server(0, 0), k);
    RegisterAllCounts(Server(0, k));
    BurstAdmitsAll(Server(0, 0), MAX_CLIENTS + 1);
    RegisterAllCounts(Server(0, MAX_CLIENTS + 1));
  }
}
