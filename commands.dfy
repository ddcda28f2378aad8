/**
 * Command handling of one received message: the `if`/`elif` chain of
 * `handle_client` (server.py:85-95) and the response texts built by
 * `send_file_list`, `handle_print` and the echo branch. The file repository
 * is a value: the directory listing in the order the directory yields it,
 * and the readable files with their contents.
 */
module Commands {
  import opened Text

  /** What a received message asks for. */
  datatype Command =
    | Terminate            // empty read (peer closed) or `exit`: leave the loop, no response
    | Status               // `status`: the connection history report
    | List                 // `list`: the file names of the repository
    | Print(name: string)  // `print <name>`: the name exactly as typed after `print `
    | Echo(text: string)   // anything else: acknowledged

  datatype Repository = Repository(listing: seq<string>, files: map<string, string>)

  const PRINT_PREFIX := "print "

  /**
   * The branch `handle_client` takes for message `m`. The tests run in the
   * source's order; the contract states each branch's condition on its own,
   * which shows the branches never overlap.
   */
  function Classify(m: string): (c: Command)
    ensures c.Terminate? <==> m == "" || Lower(m) == "exit"
    ensures c.Status? <==> Lower(m) == "status"
    ensures c.List? <==> Lower(m) == "list"
    ensures c.Print? <==> StartsWith(Lower(m), PRINT_PREFIX)
    ensures c.Print? ==> |m| >= |PRINT_PREFIX| && c.name == m[|PRINT_PREFIX|..]
    ensures c.Echo? ==> c.text == m && m != ""
  {
    var lower := Lower(m);
    if m == "" then Terminate
    else if lower == "exit" then Terminate
    else if lower == "status" then Status
    else if lower == "list" then List
    else if StartsWith(lower, PRINT_PREFIX) then Print(m[|PRINT_PREFIX|..])
    else Echo(m)
  }

  /** `f"Available files:\n{file_list}"` with the names joined by newlines. */
  function ListResponse(listing: seq<string>): (r: string)
    ensures StartsWith(r, "Available files:\n")
  {
    "Available files:\n" + Join(listing)
  }

  /** `handle_print`: the contents when the file exists, otherwise the missing-file text. */
  function PrintResponse(files: map<string, string>, name: string): (r: string)
    ensures name in files <==> StartsWith(r, "Contents of ")
  {
    if name in files then "Contents of " + name + ":\n" + files[name]
    else
      var r := "No such file: " + name;
      assert r[0] == 'N';
      r
  }

  /** `f"{message} ACK"`. */
  function EchoResponse(m: string): (r: string)
    ensures |r| == |m| + 4
  {
    m + " ACK"
  }

  /** The response to a command that does not end the session; `status` is the report of the moment. */
  function Respond(c: Command, status: string, repo: Repository): (r: string)
    requires !c.Terminate?
    ensures c.Status? ==> r == status
    ensures c.List? ==> StartsWith(r, "Available files:\n")
    ensures c.Print? ==> (c.name in repo.files <==> StartsWith(r, "Contents of "))
    ensures c.Echo? ==> |r| == |c.text| + 4 && EndsWith(r, " ACK") && r[..|c.text|] == c.text
  {
    match c
    case Status => status
    case List => ListResponse(repo.listing)
    case Print(name) => PrintResponse(repo.files, name)
    case Echo(text) => EchoResponse(text)
  }

  /** The canonical spelling of each command word is classified as that command. */
  lemma ClassifyCommandWords()
    ensures Classify("") == Terminate && Classify("exit") == Terminate
    ensures Classify("status") == Status && Classify("list") == List
  {
    LowerFixed("exit");
    LowerFixed("status");
    LowerFixed("list");
  }

  /**
   * A message that starts with `print ` in any case is a print command for
   * the rest of the message, taken verbatim.
   */
  lemma ClassifyPrint(word: string, name: string)
    requires Lower(word) == PRINT_PREFIX
    ensures Classify(word + name) == Print(name)
  {
    var m := word + name;
    assert Lower(m)[..6] == PRINT_PREFIX by {
      forall i | 0 <= i < 6 ensures Lower(m)[i] == PRINT_PREFIX[i] {
        assert m[i] == word[i];
      }
    }
    assert m[6..] == name;
  }

  /**
   * Matching ignores ASCII case: two messages that differ only in case take
   * the same branch, and a `print` name or an echoed text differs from the
   * other only in case.
   */
  lemma {:induction false} ClassifyIgnoresCase(a: string, b: string)
    requires Lower(a) == Lower(b)
    ensures Classify(a).Terminate? == Classify(b).Terminate?
    ensures Classify(a).Status? == Classify(b).Status?
    ensures Classify(a).List? == Classify(b).List?
    ensures Classify(a).Print? == Classify(b).Print?
    ensures Classify(a).Print? ==> Lower(Classify(a).name) == Lower(Classify(b).name)
    ensures Classify(a).Echo? ==> Lower(Classify(a).text) == Lower(Classify(b).text)
  {
    assert |a| == |b|;
    assert a == "" <==> b == "";
    if Classify(a).Print? {
      var na, nb := a[6..], b[6..];
      assert forall i :: 0 <= i < |na| ==> Lower(na)[i] == Lower(a)[i + 6];
      assert forall i :: 0 <= i < |nb| ==> Lower(nb)[i] == Lower(b)[i + 6];
      assert Lower(na) == Lower(nb);
    }
  }

  /** `print` without the space is not a print command: it is echoed. */
  lemma PrintNeedsSpace()
    ensures Classify("print") == Echo("print")
    ensures Respond(Classify("print"), "", Repository([], map[])) == "print ACK"
  {
    assert !StartsWith(Lower("print"), PRINT_PREFIX);
  }

  /**
   * The list response is the header line followed by one line per file
   * name, in the listing's order (an empty listing leaves one empty line).
   */
  lemma ListResponseLines(listing: seq<string>)
    requires forall i :: 0 <= i < |listing| ==> NoNewline(listing[i])
    ensures Split(ListResponse(listing)) ==
            ["Available files:"] + if listing == [] then [""] else listing
  {
    HeaderThenLines("Available files:", listing);
    assert ListResponse(listing) == "Available files:" + "\n" + Join(listing);
  }

  lemma HeaderThenLines(header: string, lines: seq<string>)
    requires NoNewline(header)
    requires forall i :: 0 <= i < |lines| ==> NoNewline(lines[i])
    ensures Split(header + "\n" + Join(lines)) == [header] + if lines == [] then [""] else lines
  {
    var h := header + "\n";
    SplitLine(header);
    if lines == [] {
      assert h + Join(lines) == h;
    } else {
      SplitJoin(lines);
      SplitConcat(h, Join(lines));
      GlueHeader(header, lines);
    }
  }

  lemma GlueHeader(header: string, lines: seq<string>)
    requires |lines| >= 1
    ensures var p := [header, ""];
            p[..|p| - 1] + [p[|p| - 1] + lines[0]] + lines[1..] == [header] + lines
  {
    assert "" + lines[0] == lines[0];
    assert [header] + [lines[0]] + lines[1..] == [header] + lines;
  }

  /** The print response names the file and carries its contents unchanged, or says it is missing. */
  lemma PrintResponseContents(files: map<string, string>, name: string)
    ensures var r := PrintResponse(files, name);
            var header := "Contents of " + name + ":\n";
            if name in files then StartsWith(r, header) && r[|header|..] == files[name]
            else r == "No such file: " + name
  {
  }

  /** The echoed text is recovered by dropping the ` ACK` suffix. */
  lemma EchoRoundTrip(m: string)
    ensures EndsWith(EchoResponse(m), " ACK")
    ensures EchoResponse(m)[..|m|] == m
  {
  }
}
