/** Turning a site's `user_url` template and a username into the URL to probe:
    the template is split on the marker `{}`, the first piece is kept and the
    username is appended to it. */
module UrlTemplate {
  import opened Errors

  /** The placeholder that marks where the username goes. */
  const Marker: string := "{}"

  /** The error `parse_user_url` would return if splitting gave no piece. */
  const ParseError: CrabtiveError := CrabtiveError("Can't parse the url!")

  /** The marker occupies positions `i` and `i + 1` of `s`. */
  predicate MarkerAt(s: string, i: int) {
    0 <= i && i + 1 < |s| && s[i] == '{' && s[i + 1] == '}'
  }

  /** `s` contains no occurrence of the marker. */
  ghost predicate NoMarker(s: string) {
    forall i :: !MarkerAt(s, i)
  }

  /** `str::split("{}")` collected into a vector: the pieces between the
      occurrences of the marker, found left to right. There is always at
      least one piece, and the first is a prefix of `s`. */
  function Split(s: string): (pieces: seq<string>)
    ensures |pieces| >= 1
    ensures pieces[0] <= s
    decreases |s|
  {
    if |s| < 2 then [s]
    else if MarkerAt(s, 0) then [""] + Split(s[2..])
    else
      var rest := Split(s[1..]);
      [[s[0]] + rest[0]] + rest[1..]
  }

  /** The inverse of `Split`: the pieces put back together, the marker between
      each two. */
  function Join(pieces: seq<string>): (s: string)
    requires |pieces| >= 1
    decreases |pieces|
  {
    if |pieces| == 1 then pieces[0] else pieces[0] + Marker + Join(pieces[1..])
  }

  /** `parse_user_url`: the template's text before its first marker (all of it
      when it has none), followed by the username verbatim. The `None` branch
      of `get(0)` is kept as written; it is never taken. */
  function ParseUserUrl(plainFormat: string, username: string): (r: Result<string, CrabtiveError>)
    ensures r.Ok?
    ensures |r.value| >= |username|
    ensures r.value[|r.value| - |username|..] == username
    ensures r.value[..|r.value| - |username|] <= plainFormat
  {
    var splited := Split(plainFormat);
    match Get(splited, 0)
    case None => Err(ParseError)
    case Some(url) =>
      var s := url + username;
      assert s[|s| - |username|..] == username && s[..|s| - |username|] == url;
      Ok(s)
  }

  /** Removing the first character of a string shifts every marker left. */
  lemma MarkerShift(s: string, i: int)
    requires |s| >= 1 && i >= 0
    ensures MarkerAt(s[1..], i) <==> MarkerAt(s, i + 1)
  {
    if 0 <= i && i + 1 < |s| - 1 {
      assert s[1..][i] == s[i + 1] && s[1..][i + 1] == s[i + 2];
    }
  }

  /** Dropping the first character keeps a string marker-free. */
  lemma NoMarkerTail(s: string)
    requires |s| >= 1 && NoMarker(s)
    ensures NoMarker(s[1..])
  {
    forall i ensures !MarkerAt(s[1..], i) {
      if i >= 0 {
        MarkerShift(s, i);
      }
    }
  }

  /** A template without a marker splits into itself alone. */
  lemma {:induction false} SplitNoMarker(s: string)
    requires NoMarker(s)
    ensures Split(s) == [s]
    decreases |s|
  {
    if |s| >= 2 {
      assert !MarkerAt(s, 0);
      NoMarkerTail(s);
      SplitNoMarker(s[1..]);
      assert [s[0]] + s[1..] == s;
    }
  }

  /** Splitting stops at the first marker: a marker-free prefix followed by the
      marker becomes the first piece, and the rest is split on its own. */
  lemma {:induction false} SplitFirstMarker(p: string, rest: string)
    requires NoMarker(p)
    ensures Split(p + Marker + rest) == [p] + Split(rest)
    decreases |p|
  {
    var s := p + Marker + rest;
    if p == [] {
      assert MarkerAt(s, 0);
      assert s[2..] == rest;
    } else {
      assert !MarkerAt(s, 0) by {
        if |p| >= 2 {
          assert !MarkerAt(p, 0);
        } else {
          assert s[1] == '{';
        }
      }
      NoMarkerTail(p);
      assert s[1..] == p[1..] + Marker + rest;
      SplitFirstMarker(p[1..], rest);
      assert [s[0]] + p[1..] == p;
    }
  }

  /** Re-attaching one character to the first piece re-attaches it to the
      joined string. */
  lemma JoinConsHead(c: char, first: string, others: seq<string>)
    ensures Join([[c] + first] + others) == [c] + Join([first] + others)
  {
    var q, q' := [[c] + first] + others, [first] + others;
    assert q[1..] == others == q'[1..];
    if others != [] {
      var tail := Join(others);
      assert Join(q) == ([c] + first) + Marker + tail;
      assert Join(q') == first + Marker + tail;
      assert ([c] + first) + Marker + tail == [c] + (first + Marker + tail);
    }
  }

  /** Joining the pieces gives back the template: nothing is lost by the split. */
  lemma {:induction false} JoinSplit(s: string)
    ensures Join(Split(s)) == s
    decreases |s|
  {
    if |s| < 2 {
    } else if MarkerAt(s, 0) {
      JoinSplit(s[2..]);
      assert ([""] + Split(s[2..]))[1..] == Split(s[2..]);
      assert s == "" + Marker + s[2..];
    } else {
      var rest := Split(s[1..]);
      JoinSplit(s[1..]);
      JoinConsHead(s[0], rest[0], rest[1..]);
      assert [rest[0]] + rest[1..] == rest;
      assert [s[0]] + s[1..] == s;
    }
  }

  /** No piece of a split contains the marker: every occurrence of `{}` is
      consumed as a separator. */
  lemma {:induction false} SplitPiecesMarkerFree(s: string)
    ensures forall i :: 0 <= i < |Split(s)| ==> NoMarker(Split(s)[i])
    decreases |s|
  {
    var pieces := Split(s);
    if |s| < 2 {
      forall j ensures !MarkerAt(s, j) {
      }
    } else if MarkerAt(s, 0) {
      SplitPiecesMarkerFree(s[2..]);
      var tail := Split(s[2..]);
      forall i | 0 <= i < |pieces| ensures NoMarker(pieces[i]) {
        if i == 0 {
          assert pieces[0] == "";
        } else {
          assert pieces[i] == tail[i - 1];
        }
      }
    } else {
      SplitPiecesMarkerFree(s[1..]);
      var rest := Split(s[1..]);
      var head := [s[0]] + rest[0];
      assert NoMarker(rest[0]);
      forall j ensures !MarkerAt(head, j) {
        if j == 0 && |rest[0]| >= 1 {
          assert head[1] == rest[0][0] == s[1];
        } else if j >= 1 {
          MarkerShift(head, j - 1);
          assert head[1..] == rest[0];
        }
      }
      forall i | 0 <= i < |pieces| ensures NoMarker(pieces[i]) {
        if i == 0 {
          assert pieces[0] == head;
        } else {
          assert pieces[i] == rest[i];
        }
      }
    }
  }

  /** Splitting a join of marker-free pieces gives back the pieces. */
  lemma {:induction false} SplitJoin(pieces: seq<string>)
    requires |pieces| >= 1
    requires forall i :: 0 <= i < |pieces| ==> NoMarker(pieces[i])
    ensures Split(Join(pieces)) == pieces
    decreases |pieces|
  {
    if |pieces| == 1 {
      SplitNoMarker(pieces[0]);
    } else {
      SplitJoin(pieces[1..]);
      SplitFirstMarker(pieces[0], Join(pieces[1..]));
    }
  }

  /** Every template either has no marker or is a marker-free prefix, the
      marker, and whatever follows. */
  lemma {:induction false} Decompose(s: string)
    ensures NoMarker(s) || exists p, r :: NoMarker(p) && s == p + Marker + r
    decreases |s|
  {
    if |s| < 2 {
      assert NoMarker(s);
    } else if MarkerAt(s, 0) {
      assert NoMarker("") && s == "" + Marker + s[2..];
    } else {
      Decompose(s[1..]);
      if NoMarker(s[1..]) {
        forall i ensures !MarkerAt(s, i) {
          if i >= 1 {
            MarkerShift(s, i - 1);
          }
        }
      } else {
        var p, r :| NoMarker(p) && s[1..] == p + Marker + r;
        var p' := [s[0]] + p;
        forall i ensures !MarkerAt(p', i) {
          if i >= 1 {
            MarkerShift(p', i - 1);
            assert p'[1..] == p;
          } else if |p| >= 1 {
            assert p'[1] == s[1];
          }
        }
        assert s == p' + Marker + r;
      }
    }
  }

  /** A template without the marker is a literal prefix: the username is
      appended to all of it. */
  lemma NoMarkerAppends(template: string, username: string)
    requires NoMarker(template)
    ensures ParseUserUrl(template, username) == Ok(template + username)
  {
    SplitNoMarker(template);
  }

  /** The username takes the place of the first marker, and everything after
      that marker is dropped. */
  lemma TextAfterFirstMarkerDropped(prefix: string, rest: string, username: string)
    requires NoMarker(prefix)
    ensures ParseUserUrl(prefix + Marker + rest, username) == Ok(prefix + username)
  {
    SplitFirstMarker(prefix, rest);
  }

  /** The empty template is not an error: it yields the username itself. */
  lemma EmptyTemplate(username: string)
    ensures ParseUserUrl("", username) == Ok(username)
  {
    assert "" + username == username;
  }

  /** A string without an opening brace has no marker. */
  lemma NoBraceNoMarker(s: string)
    requires '{' !in s
    ensures NoMarker(s)
  {
    forall i ensures !MarkerAt(s, i) {
      if 0 <= i < |s| {
        assert s[i] in s;
      }
    }
  }

  /** The example the crate's own test checks: the GitHub template with the
      username `username`. The strings come in as parameters fixed by the
      requires, so that the verifier does not unroll `Split` on a literal. */
  lemma GitHubExample(template: string, username: string)
    requires template == "https://github.com/user/{}" && username == "username"
    ensures ParseUserUrl(template, username) == Ok("https://github.com/user/username")
  {
    var p := "https://github.com/user/";
    assert '{' !in p;
    NoBraceNoMarker(p);
    assert template == p + Marker + "";
    TextAfterFirstMarkerDropped(p, "", username);
    assert p + username == "https://github.com/user/username";
  }
}
