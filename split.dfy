/** Java's String.split("/"), as both download servlets apply it to the
    request suffix, and the joining that undoes it. */
module PathSplit {

  function Slashes(n: nat): string {
    seq(n, _ => '/')
  }

  function Empties(n: nat): seq<string> {
    seq(n, _ => "")
  }

  /** The pieces between the slashes of s, empty pieces included: one piece
      more than s has slashes, and no piece holds a slash. */
  function Pieces(s: string): (parts: seq<string>)
    ensures |parts| >= 1
    ensures forall i :: 0 <= i < |parts| ==> '/' !in parts[i]
  {
    if s == [] then [""]
    else
      var rest := Pieces(s[1..]);
      if s[0] == '/' then [""] + rest
      else [[s[0]] + rest[0]] + rest[1..]
  }

  /** The parts with a slash between each two. */
  function Join(parts: seq<string>): string
    requires |parts| >= 1
  {
    if |parts| == 1 then parts[0] else parts[0] + "/" + Join(parts[1..])
  }

  /** The parts without their trailing run of empty strings. */
  function DropTrailingEmpty(parts: seq<string>): (r: seq<string>)
    ensures r <= parts
    ensures forall i :: |r| <= i < |parts| ==> parts[i] == ""
    ensures r == [] || r[|r| - 1] != ""
  {
    if parts == [] then []
    else if parts[|parts| - 1] == "" then DropTrailingEmpty(parts[..|parts| - 1])
    else parts
  }

  /** s.split("/") in Java: a string without a slash splits into itself (so ""
      gives [""]); otherwise the pieces, less the trailing empty ones (so "/"
      gives [] and "/a/" gives ["", "a"]). */
  function Split(s: string): (parts: seq<string>)
    ensures forall i :: 0 <= i < |parts| ==> '/' !in parts[i]
    ensures '/' in s ==> parts == [] || parts[|parts| - 1] != ""
  {
    if '/' !in s then [s] else DropTrailingEmpty(Pieces(s))
  }

  lemma {:induction false} PiecesOfSlashFreePrefix(a: string, b: string)
    requires '/' !in a
    ensures Pieces(a + b) == [a + Pieces(b)[0]] + Pieces(b)[1..]
    decreases |a|
  {
    if a != [] {
      assert (a + b)[1..] == a[1..] + b;
      assert '/' !in a[1..] by {
        forall i | 0 <= i < |a[1..]| ensures a[1..][i] != '/' {
          assert a[1..][i] == a[i + 1];
        }
      }
      PiecesOfSlashFreePrefix(a[1..], b);
      assert [a[0]] + (a[1..] + Pieces(b)[0]) == a + Pieces(b)[0];
    } else {
      var pb := Pieces(b);
      assert a + b == b;
      assert a + pb[0] == pb[0];
      assert pb == [pb[0]] + pb[1..];
    }
  }

  lemma PiecesOfSlashFree(a: string)
    requires '/' !in a
    ensures Pieces(a) == [a]
  {
    PiecesOfSlashFreePrefix(a, "");
    assert a + "" == a;
  }

  lemma {:induction false} JoinPieces(s: string)
    ensures Join(Pieces(s)) == s
    decreases |s|
  {
    if s != [] {
      var rest := Pieces(s[1..]);
      JoinPieces(s[1..]);
      if s[0] == '/' {
        assert Pieces(s)[1..] == rest;
        assert s == "/" + s[1..];
      } else if |rest| == 1 {
        assert s == [s[0]] + s[1..];
      } else {
        var parts := Pieces(s);
        assert parts[1..] == rest[1..];
        assert Join(rest) == rest[0] + "/" + Join(rest[1..]);
        assert s == [s[0]] + s[1..];
      }
    }
  }

  /** Pieces undoes Join on parts that hold no slash. */
  lemma {:induction false} PiecesJoin(parts: seq<string>)
    requires |parts| >= 1
    requires forall i :: 0 <= i < |parts| ==> '/' !in parts[i]
    ensures Pieces(Join(parts)) == parts
    decreases |parts|
  {
    if |parts| == 1 {
      PiecesOfSlashFree(parts[0]);
    } else {
      var tail := Join(parts[1..]);
      PiecesJoin(parts[1..]);
      assert ("/" + tail)[1..] == tail;
      assert Pieces("/" + tail) == [""] + parts[1..];
      assert Join(parts) == parts[0] + ("/" + tail);
      PiecesOfSlashFreePrefix(parts[0], "/" + tail);
      assert parts[0] + "" == parts[0];
      assert parts == [parts[0]] + parts[1..];
    }
  }

  lemma {:induction false} JoinAppend(a: seq<string>, b: seq<string>)
    requires |a| >= 1 && |b| >= 1
    ensures Join(a + b) == Join(a) + "/" + Join(b)
    decreases |a|
  {
    if |a| == 1 {
      assert (a + b)[1..] == b;
    } else {
      assert (a + b)[1..] == a[1..] + b;
      JoinAppend(a[1..], b);
    }
  }

  lemma {:induction false} JoinEmpties(parts: seq<string>, m: nat)
    requires |parts| >= 1
    ensures Join(parts + Empties(m)) == Join(parts) + Slashes(m)
    decreases m
  {
    if m == 0 {
      assert parts + Empties(0) == parts;
      assert Join(parts) + Slashes(0) == Join(parts);
    } else {
      JoinEmpties(parts, m - 1);
      assert parts + Empties(m) == (parts + Empties(m - 1)) + [""];
      JoinAppend(parts + Empties(m - 1), [""]);
      assert Slashes(m) == Slashes(m - 1) + "/";
    }
  }

  /** Empty parts after a last part that is not empty are exactly what the
      split drops. */
  lemma {:induction false} DropTrailingEmpties(parts: seq<string>, m: nat)
    requires parts == [] || parts[|parts| - 1] != ""
    ensures DropTrailingEmpty(parts + Empties(m)) == parts
    decreases m
  {
    if m == 0 {
      assert parts + Empties(0) == parts;
    } else {
      assert (parts + Empties(m))[..|parts + Empties(m)| - 1] == parts + Empties(m - 1);
      DropTrailingEmpties(parts, m - 1);
    }
  }

  /** Slash-free parts whose last is not empty, joined by slashes and followed
      by any run of slashes, split back into themselves. */
  lemma SplitJoinSlashes(parts: seq<string>, m: nat)
    requires |parts| >= 2 && parts[|parts| - 1] != ""
    requires forall i :: 0 <= i < |parts| ==> '/' !in parts[i]
    ensures Split(Join(parts) + Slashes(m)) == parts
  {
    var all := parts + Empties(m);
    assert forall i :: 0 <= i < |all| ==> '/' !in all[i] by {
      forall i | 0 <= i < |all|
        ensures '/' !in all[i]
      {
        if i >= |parts| {
          assert all[i] == "";
        }
      }
    }
    JoinEmpties(parts, m);
    SplitJoin(all);
    DropTrailingEmpties(parts, m);
  }

  lemma JoinThree(a: string, b: string, c: string)
    ensures Join([a, b, c]) == a + "/" + b + "/" + c
  {
    assert [a, b, c][1..] == [b, c];
    assert [b, c][1..] == [c];
    assert Join([b, c]) == b + "/" + c;
    assert a + "/" + (b + "/" + c) == a + "/" + b + "/" + c;
  }

  lemma SlashInJoin(parts: seq<string>)
    requires |parts| >= 2
    ensures '/' in Join(parts)
  {
    assert Join(parts)[|parts[0]|] == '/';
  }

  /** Split undoes Join on at least two slash-free parts, up to the trailing
      empty parts that Java's split drops. */
  lemma SplitJoin(parts: seq<string>)
    requires |parts| >= 2
    requires forall i :: 0 <= i < |parts| ==> '/' !in parts[i]
    ensures Split(Join(parts)) == DropTrailingEmpty(parts)
  {
    SlashInJoin(parts);
    PiecesJoin(parts);
  }

  /** Joining the parts of a split gives the string back, less the trailing
      slashes whose empty pieces the split dropped. */
  lemma SplitInverse(s: string)
    requires |Split(s)| >= 1
    ensures s == Join(Split(s)) + Slashes(|Pieces(s)| - |Split(s)|)
  {
    if '/' !in s {
      PiecesOfSlashFree(s);
      assert s + Slashes(0) == s;
    } else {
      var all, kept := Pieces(s), Split(s);
      var m := |all| - |kept|;
      assert all == kept + Empties(m);
      JoinPieces(s);
      JoinEmpties(kept, m);
    }
  }
}
