# Chat server session core, modelled in Dafny

A model of the session core of `server.py`, a threaded TCP chat server:

- **The registry.** The `clients` dictionary holds the live sessions. The `client_history` dictionary holds every session ever admitted. One lock guards both. `Registry.Registry` is a class with two fields:
  - `live`, a map from name to entry;
  - `history`, the entries in insertion order, where entry `i` belongs to `Client{i+1:02d}`.
- **Its operations.** Each `with clients_lock:` block is one method:
  - registration;
  - cleanup;
  - the admission check, done in the same step as registration;
  - the status report, built with the same accumulating loop.
- **Command handling** (`Commands`). A received message is classified as the `if`/`elif` chain does: terminate, `status`, `list`, `print <name>` or echo. Each response text is a pure function. The file repository is a value: the directory listing in the order the directory yields it, and a map from file name to contents.
- **The session loop** (`Session.RunSession`). It consumes `Event`s: a decoded message, a connection reset or any other read error. It answers every message until the first event that ends the loop, then runs cleanup once. This assumes the welcome was sent; see "Left out" for a failed welcome send. `Session.Transcript` specifies the responses. `Session.Connect` chains admission and the session. `Session.AcceptAll` models the accept loop of `main` over a burst of connections.
- **Shared text helpers** (`Text`):
  - decimal digits and zero padding (`:02d`);
  - ASCII lower-casing;
  - `"\n".join`, and a `split("\n")` used to state line-by-line properties of the texts.
- **`AdmissionRace`**. It models the admission check as the source actually runs it, and shows the capacity overshoot the split locking allows (see Findings).

Timestamps and addresses are texts the caller supplies:

- `Values.Timestamp` is the `str()` of a `datetime`: one line ending in a digit.
- `Values.Address` is the `str()` of the peer tuple: one line.

## Model

| member | source | states |
|---|---|---|
| Registry.Registry.constructor | server.py:12-13 | The server starts with no live sessions and an empty history, and the invariant holds. |
| Registry.Registry.Register | server.py:61-71 | The new name is derived from the history length and was neither live nor used. The entry is appended to the history and added to the live map, still open. The live count grows by one and the invariant is kept. |
| Registry.Registry.TryAdmit | server.py:126-138 | A connection is admitted exactly when fewer than `MAX_CLIENTS` sessions are live. Then it is registered and greeted with `Welcome to the server ` plus its name. Otherwise it gets exactly the rejection text and both registries are unchanged. The capacity bound is kept. |
| Registry.Registry.Disconnect | server.py:104-108 | The session leaves the live map, so the live count drops by one. Its history entry, and only that entry, is stamped with the disconnect time. The invariant is kept. |
| Registry.Registry.Status | server.py:24-30 | The loop builds exactly the status report of the current history. |
| Registry.ClientName | server.py:62 | A name is at least eight characters long: six for `Client`, and at least two digits. |
| Registry.ClientNameInjective | server.py:62 | Different session numbers give different names. |
| Registry.ClientNameShape | server.py:62 | A name is `Client` followed by at least two digits, exactly two below 100. The digits parse back to the session number. |
| Registry.ClientNameExamples | server.py:62 | The 1st, 9th, 10th and 100th names are `Client01`, `Client09`, `Client10` and `Client100`. |
| Registry.NamesIndex | server.py:62 | Every name of the first `count` entries gives back its index from its digits. |
| Registry.NamesFresh | server.py:62 | The next entry's name is not among the names of the entries before it. |
| Registry.FreshName | server.py:62 | In a consistent registry, the next name differs from every history name and is not live. |
| Registry.RegisterPreserves | server.py:61-71 | Registering an open entry keeps the invariant: live names are history names, and an entry is open exactly when live, with equal copies. The live map grows by exactly one. |
| Registry.RegisterKeepsNames | server.py:66 | After registration every live name is the name of a history entry. |
| Registry.RegisterKeepsEntries | server.py:66-71 | After registration an entry is open exactly when it is live, and each live entry equals its history copy. |
| Registry.LiveNameIndex | server.py:106-107 | A live name carries the index of its history entry. |
| Registry.Stamped | server.py:107 | Stamping a disconnect never changes the length of the history. |
| Registry.StampedAt | server.py:106-107 | Stamping by name changes exactly the entry at that name's index, and sets only its disconnect time. |
| Registry.DisconnectPreserves | server.py:104-108 | Cleanup keeps the invariant and makes the live map exactly one smaller. |
| Registry.DisconnectKeepsEntries | server.py:106-108 | After cleanup, an entry is open exactly when it is live, and each live entry equals its history copy. |
| Registry.DisconnectStep | server.py:106-108 | The three updates of the cleanup block (stamp `clients`, stamp `client_history`, delete from `clients`) amount to removing the live entry and stamping the history. |
| Registry.DisconnectedText | server.py:27 | The disconnect column reads `Still connected` exactly when the entry has no disconnect time. It is always one line. |
| Registry.StatusLine | server.py:28-30 | A report line starts with the session's name, `: Address: ` and its address. |
| Registry.StatusReport | server.py:24-30 | The report starts with the header `Connected clients history:` and a newline. |
| Registry.EntryLines | server.py:26-30 | There is one report line per history entry. |
| Registry.StatusLineNoNewline | server.py:28-30 | A report line contains no newline. |
| Registry.StatusReportLines | server.py:24-30 | Split at newlines, the report is the header line, then exactly one line per history entry in insertion order, then nothing. |
| Registry.StatusShowsLive | server.py:27-30 | In a consistent registry, an entry's line ends in `Disconnected at: Still connected` exactly when its session is live. |
| Commands.Classify | server.py:79-95 | A message ends the loop exactly when it is empty or lower-cases to `exit`. It is `status` or `list` exactly when it lower-cases to that whole word. It is `print` exactly when its lower-case form starts with `print `, with the name taken verbatim from the seventh character on. Anything else non-empty is echoed unchanged. |
| Commands.Respond | server.py:87-95 | `status` answers with the report given. `list` answers with the file list text. `print` answers with the contents header exactly when the file exists. An echo is the message followed by ` ACK`. |
| Commands.ClassifyCommandWords | server.py:79-90 | `""` and `exit` end the loop; `status` and `list` select their commands. |
| Commands.ClassifyPrint | server.py:91-92 | `print ` in any letter case, followed by any text, is a print command for exactly that text. |
| Commands.ClassifyIgnoresCase | server.py:85-93 | Two messages that differ only in letter case take the same branch. Their print names or echoed texts also differ only in letter case. |
| Commands.PrintNeedsSpace | server.py:91-95 | `print` without the space is echoed as `print ACK`. |
| Commands.ListResponse | server.py:40 | The list response starts with `Available files:` and a newline. |
| Commands.ListResponseLines | server.py:38-40 | When no file name contains a newline, the list response split at newlines is the header line, then the file names in listing order, or one empty line when there are none. |
| Commands.PrintResponse | server.py:49-54 | The response starts with `Contents of ` exactly when the file exists. |
| Commands.PrintResponseContents | server.py:47-54 | An existing file's response is the header naming it, then its contents unchanged. A missing file gives exactly `No such file: ` plus the name. |
| Commands.EchoResponse | server.py:94 | The echo is four characters longer than the message. |
| Commands.EchoRoundTrip | server.py:94 | The echo ends in ` ACK`, and dropping that suffix gives back the message. |
| Text.Lower | server.py:85 | Lower-casing keeps the length and maps each character on its own. |
| Text.LowerIdempotent | server.py:85 | Lower-casing a lower-cased text changes nothing. |
| Text.Pad | server.py:62 | The padded number is at least `width` characters long. |
| Text.PadRoundTrip | server.py:62 | Zero padding loses nothing: the padded digits parse back to the number. |
| Text.PadInjective | server.py:62 | Different numbers pad to different texts. |
| Text.PadLength | server.py:62 | The padded number has at least `width` digits, and exactly `width` when it fits in them. |
| Text.Join | server.py:39 | A join of at least one name ends with the last name. |
| Text.SplitJoin | server.py:39 | Splitting at newlines undoes the newline join of at least one name, when no name contains a newline. `Commands.ListResponseLines` covers the empty listing. |
| Text.SplitTerminated | server.py:24-30 | A header followed by newline-terminated lines splits back into the header, the lines and an empty tail. |
| Session.EndsExactly | server.py:79-101 | The loop ends on a reset, another error, an empty read or `exit` in any letter case, and on no other event. |
| Session.EventResponseCases | server.py:85-95 | The answer to a message follows its lower-case form. `status` gives the report. `list` gives the list. A message starting with `print ` gives the file named by its seventh character on. Anything else gives the message and ` ACK`. |
| Session.Transcript | server.py:76-101 | A session never sends more responses than it receives events. |
| Session.TranscriptStopsAtEnd | server.py:79-101 | No event the responses answer ends the loop. The event right after them does, unless the events ran out. |
| Session.TranscriptAt | server.py:84-95 | The `j`-th response answers the `j`-th event, and that event does not end the loop. |
| Session.TranscriptIgnoresAfterEnd | server.py:76-101 | Whatever follows the event that ends the loop is never read: it does not change the responses. |
| Session.TranscriptStep | server.py:76-95 | From an event that does not end the loop, the responses are its answer followed by the responses to the rest. |
| Session.Answer | server.py:87-95 | The dispatch sends the current status report for `status`. For `list`, `print <name>` and echo it sends the list, print and echo texts. |
| Session.RunSession | server.py:76-108 | The responses are the transcript of the events. Cleanup runs exactly when some event ends the loop, and then the session leaves the live map and its entry is stamped. Otherwise both registries are unchanged. The invariant is kept. |
| Session.Connect | server.py:57-108 | A connection is admitted exactly when fewer than `MAX_CLIENTS` sessions are live. A rejected connection receives exactly the rejection text, nothing is recorded, and no session runs. An admitted one leaves the registry as `Served` states, with the invariant kept. |
| Session.ServedStep | server.py:61-108 | Admission followed by a session, on the values those steps promise, gives the `Served` outcome. The new name was unused. The welcome naming it is sent, then the transcript of the events against a report that includes the new open entry. `ended` holds exactly when some event ends the loop. If it ended, the new entry is stamped and the live map is back to what it was. Otherwise the new entry stays open and live. Every earlier history entry is unchanged. |
| Session.StampedKeepsOthers | server.py:106-107 | Stamping the newest session leaves every earlier history entry unchanged. |
| Session.AcceptAll | server.py:123-138 | In a burst of connections with no session ending in between, the first connections up to the free capacity are welcomed under consecutive new names and the rest are rejected. The live count grows by the number admitted, the history gains their entries in arrival order, and the capacity bound is kept. |
| Session.AcceptNext | server.py:124-138 | One pass of the accept loop extends the accepted-so-far state by one connection. |
| Session.AcceptStep | server.py:126-138 | Given what one admission step promises, the history and the reply follow the burst's specification one connection further. |
| Session.Admitted | server.py:128 | Of `n` connections with `free` open places, the number admitted is at most both. It equals `n` or `free`. |
| Session.Replies | server.py:73 | There is one reply per connection. |
| Session.RepliesAt | server.py:73 | Reply `j` is the welcome naming entry `next + j` when `j` is below the free capacity, otherwise the rejection text. |
| Session.Opened | server.py:66-71 | Registration opens one entry per admitted connection. |
| Session.OpenedPrefix | server.py:66-71 | One more admitted connection appends its open entry to the history. |
| AdmissionRace.AcceptAsWritten | server.py:128-132 | The check admits exactly when fewer than `MAX_CLIENTS` sessions are live. It does not change the live count: a thread is only started. |
| AdmissionRace.RegisterOne | server.py:61-71 | A started thread's registration turns one pending session into a live one. |
| AdmissionRace.Burst | server.py:123-132 | During a burst of accepts the live count stays as it was, and the pending threads never decrease. |
| AdmissionRace.RegisterAll | server.py:61-71 | Once every started thread has registered, none is pending and the live count has not shrunk. |
| AdmissionRace.BurstAdmitsAll | server.py:126-132 | As the source runs it, every connection of a burst passes the check while no handler thread has registered. |
| AdmissionRace.RegisterAllCounts | server.py:61-71 | Once every started thread has registered, each one is a live session. |
| AdmissionRace.Overshoot | server.py:128 | From an empty server, a burst of `k` connections ends with `k` live sessions, so `MAX_CLIENTS + 1` of them exceed the capacity. |

## Left out

- Sockets are not modelled: bind, listen, accept, send, recv, close, and the 1024-byte receive size. Messages are whole decoded texts; the sent texts are returned in order.
- Threads and the lock are not modelled. Each locked block is one atomic method call, and sessions do not interleave. While one `RunSession` is modelled, no other session changes the registry, so every `status` in that session reports the same history.
- Registry.Registry.Register requires fewer than `MAX_CLIENTS` live sessions, although the source's registration block (server.py:61-71) makes no capacity check. It is only called from `TryAdmit`, right after the check, which is part of the same check-then-register assumption.
- Registry.Registry.TryAdmit is stronger than the source. It runs the capacity check (server.py:128) and the registration (server.py:61-71) as one step, while the source takes the lock twice, in two threads. `AdmissionRace` models the source's version and its overshoot.
- `Session.Connect` returns the welcome inside the admission step's result; in the source the handler thread sends it after registering (server.py:73).
- Session.Connect always serves an admitted connection after its welcome. In the source the welcome send (server.py:73) is outside the `try` (server.py:77). If the peer has already reset, that send raises, and the handler thread ends before the cleanup block (server.py:104-108). The session then stays in `clients` with an open history entry for the rest of the run, holding a place against `MAX_CLIENTS`. Three such connections fill the server for good. The model does not capture this, so the source does not promise "cleanup exactly once" for a session whose welcome fails.
- Session.AcceptAll always goes on to the next connection. In the source the rejection send (server.py:136-137) is outside any `try`. If it raises, the exception leaves `main`'s `while True` loop and the server stops accepting connections. The model does not capture this.
- `datetime.now()` is not modelled. Connect and disconnect times are caller-supplied `Timestamp` texts, and the peer address is a caller-supplied text.
- The file system is not modelled: `os.listdir`, `os.path.join`, `os.path.isfile`, reading files, and creating the directory. The repository is a listing and a map from name to contents. Path semantics such as `..` or directory names are not modelled. Where the file system raises an error inside a command, the source leaves the loop through `except Exception`; the model does not.
- Registry.Registry.Disconnect requires the session to be live. In the source it always is, because only the session's own handler removes it; a missing name would raise `KeyError` there.
- Session.RunSession: a finite list of events with no ending event leaves the session blocked in `recv`, so no cleanup is modelled for it.
- Text.Lower lower-cases ASCII letters only. Python's Unicode `str.lower()` can change a text's length, which would shift `message[6:]`.
- The `print(...)` logging lines are not modelled.
- `client.py` is not part of this model.

## Findings

| source | as written | input that shows it | evidently intended | confidence | as-written member | corrected member |
|---|---|---|---|---|---|---|
| server.py:128 | It checks `len(clients) < MAX_CLIENTS` in the accept loop, but the admitted session enters `clients` only later, in its handler thread's own locked block (server.py:61-71). | Four connections accepted back to back before any handler thread has registered: all four pass the check, and four sessions end up live with `MAX_CLIENTS = 3`. | At most `MAX_CLIENTS` live sessions; check and registration in one critical section. | not executed | AdmissionRace.Overshoot | Registry.Registry.TryAdmit |
