/** The edit of resolv.conf and its undoing, on the lines of the file. */
module ResolvConf {
  import opened Bytes

  // ---- text ----------------------------------------------------------------------------

  predicate IsSpace(c: char) { c in {' ', '\t', '\n', '\r'} }

  /** The length of the word a text begins with. */
  function WordEnd(s: string): (n: nat)
    ensures n <= |s|
    ensures forall i :: 0 <= i < n ==> !IsSpace(s[i])
    ensures n < |s| ==> IsSpace(s[n])
  {
    if s == [] || IsSpace(s[0]) then 0 else 1 + WordEnd(s[1..])
  }

  function Words(s: string): seq<string>
    decreases |s|
  {
    if s == [] then []
    else if IsSpace(s[0]) then Words(s[1..])
    else [s[..WordEnd(s)]] + Words(s[WordEnd(s)..])
  }

  function TrimEnd(s: string): (t: string)
    ensures t <= s
  {
    if s == [] || !IsSpace(s[|s| - 1]) then s else TrimEnd(s[..|s| - 1])
  }

  function TrimStart(s: string): string {
    if s == [] || !IsSpace(s[0]) then s else TrimStart(s[1..])
  }

  function Trim(s: string): string { TrimEnd(TrimStart(s)) }

  function Join(words: seq<string>): string {
    if words == [] then ""
    else if |words| == 1 then words[0]
    else words[0] + " " + Join(words[1..])
  }

  predicate IsSearch(line: string) {
    Words(line) != [] && Words(line)[0] == "search"
  }

  function Position(lines: seq<string>): (r: Option<nat>)
    ensures r.Some? ==> r.value < |lines| && IsSearch(lines[r.value]) && forall i :: 0 <= i < r.value ==> !IsSearch(lines[i])
    ensures r.None? ==> forall i :: 0 <= i < |lines| ==> !IsSearch(lines[i])
  {
    if lines == [] then None
    else if IsSearch(lines[0]) then Some(0)
    else match Position(lines[1..]) case Some(i) => Some(i + 1) case None => None
  }

  // ---- the edit ------------------------------------------------------------------------

  /** The words that none of `domains` is. */
  function Others(words: seq<string>, domains: seq<string>): seq<string> {
    if words == [] then []
    else (if words[0] in domains then [] else [words[0]]) + Others(words[1..], domains)
  }

  /** What stays of a search line. */
  function Kept(line: string, domains: seq<string>): string {
    Join(if Words(line) == [] then [] else Others(Words(line)[1..], domains))
  }

  /** The search line with `domains` before the others of `replaced`. */
  function NewSearch(domains: seq<string>, replaced: Option<string>): string {
    match replaced
    case None => "search " + Join(domains)
    case Some(line) =>
      TrimEnd("search " + Join(domains) + " " + Kept(line, domains))
  }

  /** The lines, those added, and the search line replaced. */
  datatype Edit = Edit(lines: seq<string>, added: seq<string>, replaced: Option<string>)

  function EditSearch(lines: seq<string>, domains: seq<string>): Edit {
    if domains == [] then Edit(lines, [], None)
    else match Position(lines)
      case Some(i) =>
        var line := NewSearch(domains, Some(lines[i]));
        Edit(lines[i := line], [line], Some(lines[i]))
      case None =>
        var line := NewSearch(domains, None);
        Edit([line] + lines, [line], None)
  }

  predicate Present(lines: seq<string>, line: string) {
    exists i :: 0 <= i < |lines| && Trim(lines[i]) == line
  }

  function AddServer(e: Edit, server: string): Edit {
    var line := "nameserver " + server;
    if Present(e.lines, line) then e else e.(lines := [line] + e.lines, added := e.added + [line])
  }

  /** The last server first, so that the first is on top. */
  function AddServers(e: Edit, servers: seq<string>): Edit
    decreases |servers|
  {
    if servers == [] then e
    else AddServers(AddServer(e, servers[|servers| - 1]), servers[..|servers| - 1])
  }

  function EditLines(lines: seq<string>, servers: seq<string>, domains: seq<string>): Edit {
    AddServers(EditSearch(lines, domains), servers)
  }

  method EditFile(file: seq<string>, servers: seq<string>, domains: seq<string>)
    returns (lines: seq<string>, added: seq<string>, replaced: Option<string>)
    ensures Edit(lines, added, replaced) == EditLines(file, servers, domains)
  {
    lines, added, replaced := file, [], None;
    if domains != [] {
      var existing := Position(lines);
      var line: string;
      if existing.Some? {
        var index := existing.value;
        var removed := lines[index];
        lines := lines[..index] + lines[index + 1..];
        line := NewSearch(domains, Some(removed));
        replaced := Some(removed);
        lines := lines[..index] + [line] + lines[index..];
        assert lines == file[index := line];
      } else {
        line := NewSearch(domains, None);
        lines := [line] + lines;
      }
      added := added + [line];
    }
    ghost var first := Edit(lines, added, replaced);
    assert first == EditSearch(file, domains);
    var i := |servers|;
    assert servers[..i] == servers;
    while i > 0
      invariant 0 <= i <= |servers|
      invariant AddServers(first, servers) == AddServers(Edit(lines, added, replaced), servers[..i])
    {
      assert servers[..i][..i - 1] == servers[..i - 1];
      i := i - 1;
      var line := "nameserver " + servers[i];
      if !Present(lines, line) {
        lines := [line] + lines;
        added := added + [line];
      }
    }
  }

  // ---- the undoing ---------------------------------------------------------------------

  predicate StartsWithSearch(line: string) { "search" <= line }

  function RestoreLine(line: string, added: seq<string>, replaced: Option<string>): seq<string> {
    if line !in added then [line]
    else if replaced.Some? && StartsWithSearch(line) then [replaced.value]
    else []
  }

  function Restore(lines: seq<string>, added: seq<string>, replaced: Option<string>): seq<string> {
    if lines == [] then [] else RestoreLine(lines[0], added, replaced) + Restore(lines[1..], added, replaced)
  }

  lemma {:induction false} RestoreJoin(a: seq<string>, b: seq<string>, added: seq<string>, replaced: Option<string>)
    ensures Restore(a + b, added, replaced) == Restore(a, added, replaced) + Restore(b, added, replaced)
  {
    if a == [] {
      assert a + b == b;
    } else {
      RestoreJoin(a[1..], b, added, replaced);
      assert (a + b)[1..] == a[1..] + b;
    }
  }

  lemma {:induction false} RestoreKeeps(lines: seq<string>, added: seq<string>, replaced: Option<string>)
    requires forall i :: 0 <= i < |lines| ==> lines[i] !in added
    ensures Restore(lines, added, replaced) == lines
  {
    if lines != [] {
      RestoreKeeps(lines[1..], added, replaced);
    }
  }

  // ---- the search line -----------------------------------------------------------------

  lemma {:induction false} TrimEndKeeps(s: string, n: nat)
    requires 0 < n <= |s| && !IsSpace(s[n - 1])
    ensures |TrimEnd(s)| >= n
  {
    if IsSpace(s[|s| - 1]) {
      TrimEndKeeps(s[..|s| - 1], n);
    }
  }

  lemma FirstWord(line: string)
    requires |line| >= 6 && line[..6] == "search" && (|line| > 6 ==> IsSpace(line[6]))
    ensures IsSearch(line)
  {
    var n := WordEnd(line);
    assert forall i :: 0 <= i < 6 ==> line[i] == line[..6][i] && !IsSpace(line[i]);
    assert n == 6;
  }

  lemma BeginsSearch(front: string, rest: string)
    requires front == "search "
    ensures IsSearch(front + rest) && StartsWithSearch(front + rest)
    ensures IsSearch(TrimEnd(front + rest)) && StartsWithSearch(TrimEnd(front + rest))
  {
    var whole := front + rest;
    assert whole[5] == 'h' && whole[6] == ' ' && whole[..6] == "search";
    FirstWord(whole);
    TrimEndKeeps(whole, 6);
    assert TrimEnd(whole)[..6] == whole[..6];
    FirstWord(TrimEnd(whole));
  }

  /** A new search line is one. */
  lemma NewSearchIsSearch(domains: seq<string>, replaced: Option<string>)
    ensures IsSearch(NewSearch(domains, replaced)) && StartsWithSearch(NewSearch(domains, replaced))
  {
    match replaced
    case None => BeginsSearch("search ", Join(domains));
    case Some(line) =>
      BeginsSearch("search ", Join(domains) + " " + Kept(line, domains));
      assert "search " + Join(domains) + " " + Kept(line, domains) == "search " + (Join(domains) + " " + Kept(line, domains));
  }

  lemma ServerIsNotSearch(server: string)
    ensures !StartsWithSearch("nameserver " + server)
  {
    assert ("nameserver " + server)[0] == 'n';
  }

  // ---- restoring what was edited -----------------------------------------------------------

  lemma {:induction false} SameWithout(lines: seq<string>, added: seq<string>, line: string, replaced: Option<string>)
    requires line !in lines
    ensures Restore(lines, added + [line], replaced) == Restore(lines, added, replaced)
  {
    if lines != [] {
      SameWithout(lines[1..], added, line, replaced);
      assert lines[0] in added + [line] <==> lines[0] in added;
    }
  }

  /** An address as text: it ends in no space. */
  predicate Plain(server: string) { server != "" && !IsSpace(server[|server| - 1]) }

  lemma PlainIsTrimmed(server: string)
    requires Plain(server)
    ensures Trim("nameserver " + server) == "nameserver " + server
  {
    var line := "nameserver " + server;
    assert line[0] == 'n' && line[|line| - 1] == server[|server| - 1];
  }

  /** One more server changes nothing in what is restored. */
  lemma ServerUndone(e: Edit, server: string)
    requires Plain(server)
    ensures var f := AddServer(e, server);
            f.replaced == e.replaced && Restore(f.lines, f.added, f.replaced) == Restore(e.lines, e.added, e.replaced)
  {
    var line := "nameserver " + server;
    PlainIsTrimmed(server);
    if !Present(e.lines, line) {
      ServerIsNotSearch(server);
      assert line !in e.lines;
      SameWithout(e.lines, e.added, line, e.replaced);
      assert ([line] + e.lines)[1..] == e.lines;
      assert [] + Restore(e.lines, e.added + [line], e.replaced) == Restore(e.lines, e.added + [line], e.replaced);
    }
  }

  lemma {:induction false} ServersUndone(e: Edit, servers: seq<string>)
    requires forall s :: s in servers ==> Plain(s)
    ensures var f := AddServers(e, servers);
            f.replaced == e.replaced && Restore(f.lines, f.added, f.replaced) == Restore(e.lines, e.added, e.replaced)
    decreases |servers|
  {
    if servers != [] {
      var n := |servers| - 1;
      assert servers[n] in servers;
      ServerUndone(e, servers[n]);
      ServersUndone(AddServer(e, servers[n]), servers[..n]);
    }
  }

  /** Another line than the search line replaced is what that one becomes. */
  predicate Doubled(lines: seq<string>, domains: seq<string>) {
    && domains != [] && Position(lines).Some?
    && var i := Position(lines).value;
       var line := NewSearch(domains, Some(lines[i]));
       lines[i] != line && line in lines[i + 1..]
  }

  lemma {:induction false} ReplacedElsewhere(lines: seq<string>, line: string, was: string)
    requires StartsWithSearch(line)
    ensures Restore(lines, [line], Some(was)) == lines <==> line == was || line !in lines
    ensures |Restore(lines, [line], Some(was))| == |lines|
  {
    if lines != [] {
      ReplacedElsewhere(lines[1..], line, was);
      var r := RestoreLine(lines[0], [line], Some(was)) + Restore(lines[1..], [line], Some(was));
      assert r[0] == if lines[0] == line then was else lines[0];
      assert r[1..] == Restore(lines[1..], [line], Some(was));
    }
  }

  lemma RestoreOne(line: string, was: string)
    requires StartsWithSearch(line)
    ensures Restore([line], [line], Some(was)) == [was]
  {
    assert Restore([line][1..], [line], Some(was)) == [];
  }

  lemma Suffixes(a: seq<string>, b: seq<string>, c: seq<string>, d: seq<string>)
    requires |c| == |d|
    ensures a + (b + c) == a + (b + d) <==> c == d
  {
    assert (a + (b + c))[|a|..] == b + c && (a + (b + d))[|a|..] == b + d;
    assert (b + c)[|b|..] == c && (b + d)[|b|..] == d;
  }

  lemma LineUndone(lines: seq<string>, i: nat, line: string)
    requires i < |lines| && StartsWithSearch(line) && forall j :: 0 <= j < i ==> lines[j] != line
    ensures Restore(lines[i := line], [line], Some(lines[i])) == lines <==> lines[i] == line || line !in lines[i + 1..]
  {
    var before, was, after := lines[..i], lines[i], lines[i + 1..];
    var rest := [line] + after;
    RestoreKeeps(before, [line], Some(was));
    ReplacedElsewhere(after, line, was);
    RestoreJoin([line], after, [line], Some(was));
    RestoreOne(line, was);
    RestoreJoin(before, rest, [line], Some(was));
    assert lines[i := line] == before + rest;
    assert lines == before + ([was] + after);
    Suffixes(before, [was], Restore(after, [line], Some(was)), after);
  }

  lemma SearchUndone(lines: seq<string>, domains: seq<string>)
    ensures var e := EditSearch(lines, domains);
            Restore(e.lines, e.added, e.replaced) == lines <==> !Doubled(lines, domains)
  {
    if domains == [] {
      RestoreKeeps(lines, [], None);
    } else if Position(lines).None? {
      var line := NewSearch(domains, None);
      NewSearchIsSearch(domains, None);
      RestoreKeeps(lines, [line], None);
      assert ([line] + lines)[1..] == lines && [] + lines == lines;
    } else {
      var i := Position(lines).value;
      NewSearchIsSearch(domains, Some(lines[i]));
      LineUndone(lines, i, NewSearch(domains, Some(lines[i])));
    }
  }

  predicate AtMostOneSearch(lines: seq<string>) {
    forall i, j :: 0 <= i < j < |lines| ==> !IsSearch(lines[i]) || !IsSearch(lines[j])
  }

  /** Restoring undoes the edit, whatever the lines, servers and domains, if
      and only if the search line does not become what another line is. */
  lemma RestoreUndoesEdit(lines: seq<string>, servers: seq<string>, domains: seq<string>)
    requires forall s :: s in servers ==> Plain(s)
    ensures var e := EditLines(lines, servers, domains);
            Restore(e.lines, e.added, e.replaced) == lines <==> !Doubled(lines, domains)
  {
    SearchUndone(lines, domains);
    ServersUndone(EditSearch(lines, domains), servers);
  }

  /** And so it does for at most one search line. */
  lemma OneSearchIsRestored(lines: seq<string>, servers: seq<string>, domains: seq<string>)
    requires (forall s :: s in servers ==> Plain(s)) && AtMostOneSearch(lines)
    ensures var e := EditLines(lines, servers, domains); Restore(e.lines, e.added, e.replaced) == lines
  {
    RestoreUndoesEdit(lines, servers, domains);
    if domains != [] && Position(lines).Some? {
      var i := Position(lines).value;
      NewSearchIsSearch(domains, Some(lines[i]));
      var after := lines[i + 1..];
      forall k | 0 <= k < |after| ensures after[k] != NewSearch(domains, Some(lines[i])) {
        assert after[k] == lines[i + 1 + k];
      }
    }
  }

  /** A line of two lists. `foreign`: another program put it in. */
  datatype Line = Line(text: string, foreign: bool)

  function Texts(lines: seq<Line>): seq<string> {
    if lines == [] then [] else [lines[0].text] + Texts(lines[1..])
  }

  function Ours(lines: seq<Line>): seq<string> {
    if lines == [] then [] else (if lines[0].foreign then [] else [lines[0].text]) + Ours(lines[1..])
  }

  function Foreign(lines: seq<Line>): seq<string> {
    if lines == [] then [] else (if lines[0].foreign then [lines[0].text] else []) + Foreign(lines[1..])
  }

  function AsOurs(texts: seq<string>): seq<Line> {
    if texts == [] then [] else [Line(texts[0], false)] + AsOurs(texts[1..])
  }

  /** What restoring makes of lines, each with who put it in. */
  function RestoreLines(lines: seq<Line>, added: seq<string>, replaced: Option<string>): seq<Line> {
    if lines == [] then []
    else
      (if lines[0].foreign then [lines[0]] else AsOurs(RestoreLine(lines[0].text, added, replaced)))
      + RestoreLines(lines[1..], added, replaced)
  }

  lemma {:induction false} TextsJoin(a: seq<Line>, b: seq<Line>)
    ensures Texts(a + b) == Texts(a) + Texts(b)
  {
    if a == [] {
      assert a + b == b;
    } else {
      var head := [a[0].text];
      TextsJoin(a[1..], b);
      assert (a + b)[1..] == a[1..] + b && Texts(a + b) == head + Texts(a[1..] + b);
      assert head + (Texts(a[1..]) + Texts(b)) == head + Texts(a[1..]) + Texts(b);
    }
  }

  lemma {:induction false} OursJoin(a: seq<Line>, b: seq<Line>)
    ensures Ours(a + b) == Ours(a) + Ours(b)
  {
    if a == [] {
      assert a + b == b;
    } else {
      var head := if a[0].foreign then [] else [a[0].text];
      OursJoin(a[1..], b);
      assert (a + b)[1..] == a[1..] + b && Ours(a + b) == head + Ours(a[1..] + b);
      assert head + (Ours(a[1..]) + Ours(b)) == head + Ours(a[1..]) + Ours(b);
    }
  }

  lemma {:induction false} ForeignJoin(a: seq<Line>, b: seq<Line>)
    ensures Foreign(a + b) == Foreign(a) + Foreign(b)
  {
    if a == [] {
      assert a + b == b;
    } else {
      var head := if a[0].foreign then [a[0].text] else [];
      ForeignJoin(a[1..], b);
      assert (a + b)[1..] == a[1..] + b && Foreign(a + b) == head + Foreign(a[1..] + b);
      assert head + (Foreign(a[1..]) + Foreign(b)) == head + Foreign(a[1..]) + Foreign(b);
    }
  }

  lemma OneIsOurs(line: string, added: seq<string>, replaced: Option<string>)
    ensures var r := RestoreLine(line, added, replaced);
            Texts(AsOurs(r)) == r && Ours(AsOurs(r)) == r && Foreign(AsOurs(r)) == []
  {
  }

  lemma {:induction false} ForeignStays(lines: seq<Line>, added: seq<string>, replaced: Option<string>)
    requires forall i :: 0 <= i < |lines| && lines[i].foreign ==> lines[i].text !in added
    ensures Texts(RestoreLines(lines, added, replaced)) == Restore(Texts(lines), added, replaced)
    ensures Ours(RestoreLines(lines, added, replaced)) == Restore(Ours(lines), added, replaced)
    ensures Foreign(RestoreLines(lines, added, replaced)) == Foreign(lines)
  {
    if lines != [] {
      ForeignStays(lines[1..], added, replaced);
      var first := if lines[0].foreign then [lines[0]] else AsOurs(RestoreLine(lines[0].text, added, replaced));
      var rest := RestoreLines(lines[1..], added, replaced);
      TextsJoin(first, rest);
      OursJoin(first, rest);
      ForeignJoin(first, rest);
      OneIsOurs(lines[0].text, added, replaced);
      RestoreJoin([lines[0].text], Texts(lines[1..]), added, replaced);
      RestoreJoin(if lines[0].foreign then [] else [lines[0].text], Ours(lines[1..]), added, replaced);
    }
  }

  /** Lines that other programs put among the edited ones meanwhile, if none is
      a line added, stay where they are; around them the original lines come
      back. */
  lemma OthersLinesStay(lines: seq<string>, servers: seq<string>, domains: seq<string>, now: seq<Line>)
    requires (forall s :: s in servers ==> Plain(s)) && AtMostOneSearch(lines)
    requires var e := EditLines(lines, servers, domains);
             Ours(now) == e.lines && forall i :: 0 <= i < |now| && now[i].foreign ==> now[i].text !in e.added
    ensures var e := EditLines(lines, servers, domains);
            var after := RestoreLines(now, e.added, e.replaced);
            Texts(after) == Restore(Texts(now), e.added, e.replaced) && Ours(after) == lines && Foreign(after) == Foreign(now)
  {
    var e := EditLines(lines, servers, domains);
    ForeignStays(now, e.added, e.replaced);
    OneSearchIsRestored(lines, servers, domains);
  }
}
