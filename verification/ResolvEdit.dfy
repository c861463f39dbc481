/** What an edit of resolv.conf adds to the file. */
module ResolvEdit {
  import opened Bytes
  import opened ResolvConf

  // ---- what the edit adds ------------------------------------------------------------------

  /** `server` is on no line, and is not named again later. */
  ghost predicate IsMissing(lines: seq<string>, servers: seq<string>, i: nat)
    requires i < |servers|
  {
    !Present(lines, "nameserver " + servers[i]) && servers[i] !in servers[i + 1..]
  }

  ghost predicate Increasing(at: seq<nat>) { forall i, j :: 0 <= i < j < |at| ==> at[i] < at[j] }

  /** The lines of the servers at these places, in their order. */
  function ServerLines(servers: seq<string>, at: seq<nat>): seq<string>
    requires forall k :: k in at ==> k < |servers|
  {
    seq(|at|, i requires 0 <= i < |at| => assert at[i] in at; "nameserver " + servers[at[i]])
  }

  function Reversed(lines: seq<string>): seq<string> {
    if lines == [] then [] else Reversed(lines[1..]) + [lines[0]]
  }

  /** These servers were missing: all of them, and no others. */
  ghost predicate AreMissing(lines: seq<string>, servers: seq<string>, at: seq<nat>) {
    && Increasing(at) && (forall k :: k in at ==> k < |servers|)
    && forall i :: 0 <= i < |servers| ==> (i in at <==> IsMissing(lines, servers, i))
  }

  /** The missing servers stand above the lines there were, in the order
      given, and were added from the last to the first. */
  ghost predicate ServersAdded(before: Edit, after: Edit, servers: seq<string>, at: seq<nat>) {
    && AreMissing(before.lines, servers, at)
    && after.lines == ServerLines(servers, at) + before.lines
    && after.added == before.added + Reversed(ServerLines(servers, at))
    && after.replaced == before.replaced
  }

  lemma PresentMore(line: string, lines: seq<string>, other: string)
    ensures Present([line] + lines, other) <==> Trim(line) == other || Present(lines, other)
  {
    var all := [line] + lines;
    assert all[0] == line;
    if Present(lines, other) {
      var i :| 0 <= i < |lines| && Trim(lines[i]) == other;
      assert all[i + 1] == lines[i];
    }
  }

  lemma SameServer(a: string, b: string)
    ensures "nameserver " + a == "nameserver " + b <==> a == b
  {
    assert ("nameserver " + a)[11..] == a && ("nameserver " + b)[11..] == b;
  }

  /** Whether a server is missing before and after the last one was added. */
  lemma MissingBefore(e: Edit, servers: seq<string>, i: nat)
    requires servers != [] && i < |servers| - 1 && Plain(servers[|servers| - 1])
    ensures var n := |servers| - 1;
            IsMissing(e.lines, servers, i) <==> IsMissing(AddServer(e, servers[n]).lines, servers[..n], i)
  {
    var n := |servers| - 1;
    var line, last := "nameserver " + servers[i], "nameserver " + servers[n];
    PlainIsTrimmed(servers[n]);
    PresentMore(last, e.lines, line);
    SameServer(servers[i], servers[n]);
    assert servers[i + 1..] == servers[..n][i + 1..] + [servers[n]];
  }

  lemma LinesMore(servers: seq<string>, at: seq<nat>, n: nat)
    requires n < |servers| && forall k :: k in at ==> k < n
    ensures ServerLines(servers, at + [n]) == ServerLines(servers[..n], at) + ["nameserver " + servers[n]]
    ensures ServerLines(servers, at) == ServerLines(servers[..n], at)
  {
    forall i | 0 <= i < |at| ensures ServerLines(servers, at)[i] == ServerLines(servers[..n], at)[i] {
      assert at[i] in at;
    }
    forall i | 0 <= i < |at| ensures ServerLines(servers, at + [n])[i] == ServerLines(servers[..n], at)[i] {
      assert at[i] in at && (at + [n])[i] == at[i];
    }
  }

  lemma {:induction false} ReversedMore(lines: seq<string>, line: string)
    ensures Reversed(lines + [line]) == [line] + Reversed(lines)
  {
    if lines == [] {
      assert [line][1..] == [];
    } else {
      ReversedMore(lines[1..], line);
      assert (lines + [line])[1..] == lines[1..] + [line];
    }
  }

  lemma IncreasingMore(at: seq<nat>, n: nat)
    requires Increasing(at) && forall k :: k in at ==> k < n
    ensures Increasing(at + [n])
  {
    forall i | 0 <= i < |at| ensures at[i] < n {
      assert at[i] in at;
    }
  }

  lemma {:induction false} AddsMissing(e: Edit, servers: seq<string>) returns (at: seq<nat>)
    requires forall s :: s in servers ==> Plain(s)
    ensures ServersAdded(e, AddServers(e, servers), servers, at)
    decreases |servers|
  {
    if servers == [] {
      at := [];
    } else {
      var n := |servers| - 1;
      assert servers[n] in servers;
      var f := AddServer(e, servers[n]);
      var before := AddsMissing(f, servers[..n]);
      forall i | 0 <= i < n ensures i in before <==> IsMissing(e.lines, servers, i) {
        MissingBefore(e, servers, i);
      }
      LinesMore(servers, before, n);
      if IsMissing(e.lines, servers, n) {
        at := before + [n];
        IncreasingMore(before, n);
        ReversedMore(ServerLines(servers[..n], before), "nameserver " + servers[n]);
      } else {
        at := before;
      }
      assert n !in before && servers[n + 1..] == [];
      assert (before + [n])[|before|] == n;
      forall i | 0 <= i < |servers| ensures i in at <==> IsMissing(e.lines, servers, i) {
        if i < n {
          MissingBefore(e, servers, i);
          assert i in at <==> i in before;
        } else {
          assert i in at <==> at == before + [n];
        }
      }
    }
  }

  // ---- the words of the search line ----------------------------------------------------------

  predicate IsWord(w: string) { w != "" && forall i :: 0 <= i < |w| ==> !IsSpace(w[i]) }

  predicate AllWords(words: seq<string>) { forall w :: w in words ==> IsWord(w) }

  /** A word, and a space after it or the end. */
  lemma WordFirst(w: string, rest: string)
    requires IsWord(w) && (rest == "" || IsSpace(rest[0]))
    ensures Words(w + rest) == [w] + Words(rest)
  {
    var s := w + rest;
    var n := WordEnd(s);
    assert forall i :: 0 <= i < |w| ==> s[i] == w[i];
    assert n >= |w|;
    assert rest != "" ==> s[|w|] == rest[0];
    assert n == |w|;
    assert s[..n] == w && s[n..] == rest;
  }

  lemma {:induction false} WordsJoined(words: seq<string>)
    requires AllWords(words)
    ensures Words(Join(words)) == words
  {
    if |words| == 1 {
      WordFirst(words[0], "");
      assert words[0] + "" == words[0];
    } else if words != [] {
      WordsJoined(words[1..]);
      WordFirst(words[0], " " + Join(words[1..]));
      assert words[0] + " " + Join(words[1..]) == words[0] + (" " + Join(words[1..]));
      assert (" " + Join(words[1..]))[1..] == Join(words[1..]);
    }
  }

  lemma Regrouped(word: string, more: seq<string>, rest: seq<string>)
    ensures [word] + (more + rest) == [word] + more + rest
  {
  }

  lemma Cut(a: string, b: string, n: nat)
    requires n <= |a|
    ensures a == a[..n] + a[n..] && a + b == a[..n] + (a[n..] + b)
  {
  }

  lemma {:induction false} WordsApart(a: string, b: string)
    requires b == "" || IsSpace(b[0])
    ensures Words(a + b) == Words(a) + Words(b)
    decreases |a|
  {
    if a == "" {
      assert a + b == b;
    } else if IsSpace(a[0]) {
      WordsApart(a[1..], b);
      assert (a + b)[1..] == a[1..] + b;
    } else {
      var n := WordEnd(a);
      WordsApart(a[n..], b);
      Cut(a, b, n);
      WordFirst(a[..n], a[n..] + b);
      WordFirst(a[..n], a[n..]);
      Regrouped(a[..n], Words(a[n..]), Words(b));
    }
  }

  lemma {:induction false} WordsTrimmed(s: string)
    ensures Words(TrimEnd(s)) == Words(s)
  {
    if s != "" && IsSpace(s[|s| - 1]) {
      var n := |s| - 1;
      WordsTrimmed(s[..n]);
      WordsApart(s[..n], s[n..]);
      assert s == s[..n] + s[n..] && s[n..][1..] == "" && Words(s[n..]) == [];
    }
  }

  lemma {:induction false} WordsAreWords(s: string)
    ensures AllWords(Words(s))
    decreases |s|
  {
    if s != "" {
      if IsSpace(s[0]) {
        WordsAreWords(s[1..]);
      } else {
        WordsAreWords(s[WordEnd(s)..]);
      }
    }
  }

  lemma {:induction false} OthersAreWords(words: seq<string>, domains: seq<string>)
    requires AllWords(words)
    ensures AllWords(Others(words, domains))
  {
    if words != [] {
      assert forall w :: w in words[1..] ==> w in words;
      OthersAreWords(words[1..], domains);
      assert words[0] in words;
    }
  }

  /** The words but for those in `domains`. */
  function Besides(words: seq<string>, domains: seq<string>): seq<string> {
    if words == [] then []
    else
      var n := |words| - 1;
      if words[n] in domains then Besides(words[..n], domains) else Besides(words[..n], domains) + [words[n]]
  }

  lemma {:induction false} OthersMore(words: seq<string>, word: string, domains: seq<string>)
    ensures Others(words + [word], domains) == Others(words, domains) + if word in domains then [] else [word]
  {
    if words == [] {
      assert [word][1..] == [];
    } else {
      OthersMore(words[1..], word, domains);
      assert (words + [word])[1..] == words[1..] + [word];
    }
  }

  lemma {:induction false} OthersAreBesides(words: seq<string>, domains: seq<string>)
    ensures Others(words, domains) == Besides(words, domains)
  {
    if words != [] {
      var n := |words| - 1;
      OthersAreBesides(words[..n], domains);
      OthersMore(words[..n], words[n], domains);
      assert words == words[..n] + [words[n]];
    }
  }

  /** The words a search line had, but for those in `domains`. */
  function OldWords(replaced: Option<string>, domains: seq<string>): seq<string> {
    if replaced.None? || Words(replaced.value) == [] then [] else Besides(Words(replaced.value)[1..], domains)
  }

  lemma OldAreWords(replaced: Option<string>, domains: seq<string>)
    ensures AllWords(OldWords(replaced, domains))
  {
    if replaced.Some? && Words(replaced.value) != [] {
      var words := Words(replaced.value);
      WordsAreWords(replaced.value);
      assert forall w :: w in words[1..] ==> w in words;
      OthersAreWords(words[1..], domains);
      OthersAreBesides(words[1..], domains);
    }
  }

  /** A new search line names the domains first, and then what the old one
      named besides them. */
  lemma SearchNames(domains: seq<string>, replaced: Option<string>)
    requires AllWords(domains)
    ensures Words(NewSearch(domains, replaced)) == ["search"] + domains + OldWords(replaced, domains)
  {
    WordsJoined(domains);
    var ours := "search " + Join(domains);
    WordFirst("search", " " + Join(domains));
    assert ours == "search" + (" " + Join(domains)) && (" " + Join(domains))[1..] == Join(domains);
    if replaced.Some? {
      var kept := Kept(replaced.value, domains);
      OldAreWords(replaced, domains);
      if Words(replaced.value) != [] {
        OthersAreBesides(Words(replaced.value)[1..], domains);
      }
      WordsJoined(OldWords(replaced, domains));
      WordsApart(ours, " " + kept);
      assert ours + " " + kept == ours + (" " + kept) && (" " + kept)[1..] == kept;
      WordsTrimmed(ours + " " + kept);
    }
  }

  // ---- the whole edit ---------------------------------------------------------------------------

  /** The first search line. */
  ghost predicate IsFirstSearch(lines: seq<string>, i: int) {
    && 0 <= i < |lines| && Words(lines[i]) != [] && Words(lines[i])[0] == "search"
    && forall j :: 0 <= j < i ==> Words(lines[j]) == [] || Words(lines[j])[0] != "search"
  }

  /** With domains, a search line takes the place of the first there was, or
      stands on top: it names them first, and then what the old one did. */
  ghost predicate SearchEdited(lines: seq<string>, domains: seq<string>, e: Edit) {
    if domains == [] then e == Edit(lines, [], None)
    else
      && |e.added| == 1 && Words(e.added[0]) == ["search"] + domains + OldWords(e.replaced, domains)
      && (forall i :: IsFirstSearch(lines, i) ==> e.lines == lines[i := e.added[0]] && e.replaced == Some(lines[i]))
      && ((forall i :: 0 <= i < |lines| ==> !IsFirstSearch(lines, i)) ==> e.lines == [e.added[0]] + lines && e.replaced == None)
  }

  lemma SearchIsEdited(lines: seq<string>, domains: seq<string>)
    requires AllWords(domains)
    ensures SearchEdited(lines, domains, EditSearch(lines, domains))
  {
    if domains != [] {
      match Position(lines)
      case Some(i) =>
        assert IsFirstSearch(lines, i);
        SearchNames(domains, Some(lines[i]));
      case None =>
        SearchNames(domains, None);
    }
  }

  /** An edit puts the missing servers on top, in the order given, and the
      domains first in the search list; all other lines stay as they are. */
  lemma EditAdds(lines: seq<string>, servers: seq<string>, domains: seq<string>) returns (at: seq<nat>, searched: Edit)
    requires (forall s :: s in servers ==> Plain(s)) && AllWords(domains)
    ensures SearchEdited(lines, domains, searched) && ServersAdded(searched, EditLines(lines, servers, domains), servers, at)
  {
    searched := EditSearch(lines, domains);
    SearchIsEdited(lines, domains);
    at := AddsMissing(searched, servers);
  }

  lemma {:induction false} AddedStay(e: Edit, servers: seq<string>, line: string)
    requires Present(e.lines, line)
    ensures Present(AddServers(e, servers).lines, line)
    decreases |servers|
  {
    if servers != [] {
      var n := |servers| - 1;
      PresentMore("nameserver " + servers[n], e.lines, line);
      AddedStay(AddServer(e, servers[n]), servers[..n], line);
    }
  }

  /** After it every server is present. */
  lemma {:induction false} ServersPresent(e: Edit, servers: seq<string>, s: string)
    requires (forall x :: x in servers ==> Plain(x)) && s in servers
    ensures Present(AddServers(e, servers).lines, "nameserver " + s)
    decreases |servers|
  {
    var n := |servers| - 1;
    var f := AddServer(e, servers[n]);
    if s == servers[n] {
      PlainIsTrimmed(s);
      PresentMore("nameserver " + s, e.lines, "nameserver " + s);
      AddedStay(f, servers[..n], "nameserver " + s);
    } else {
      assert s in servers[..n];
      ServersPresent(f, servers[..n], s);
    }
  }
}
