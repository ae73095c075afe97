/** Comma-separated name lists and the choice between two of them (match.c). */
module MatchList {
  import opened Bytes

  const MAX_PROP: nat := 40
  const COMMA: byte := 44

  function Ascii(s: string): seq<byte> {
    seq(|s|, i requires 0 <= i < |s| => s[i] as int % 256)
  }

  /** The position of the first comma, or the length. */
  function Comma(s: seq<byte>): (n: nat)
    ensures n <= |s| && COMMA !in s[..n] && (n < |s| ==> s[n] == COMMA)
  {
    if s == [] || s[0] == COMMA then 0 else
      assert s[..Comma(s[1..]) + 1] == [s[0]] + s[1..][..Comma(s[1..])];
      Comma(s[1..]) + 1
  }

  /** The items of a list as strsep yields them; an empty item ends the list. */
  function Items(s: seq<byte>): seq<seq<byte>>
    decreases |s|
  {
    var n := Comma(s);
    if n == 0 then [] else [s[..n]] + if n < |s| then Items(s[n + 1..]) else []
  }

  function Join(names: seq<seq<byte>>): seq<byte> {
    if names == [] then [] else if |names| == 1 then names[0] else names[0] + [COMMA] + Join(names[1..])
  }

  predicate IsName(s: seq<byte>) { s != [] && COMMA !in s }

  lemma {:induction false} CommaAfter(name: seq<byte>, rest: seq<byte>)
    requires COMMA !in name && (rest == [] || rest[0] == COMMA)
    ensures Comma(name + rest) == |name|
  {
    if name == [] {
      assert name + rest == rest;
    } else {
      assert (name + rest)[1..] == name[1..] + rest;
      CommaAfter(name[1..], rest);
    }
  }

  /** A list written with commas is read back name by name. */
  lemma {:induction false} ItemsOfJoin(names: seq<seq<byte>>)
    requires forall i :: 0 <= i < |names| ==> IsName(names[i])
    ensures Items(Join(names)) == names
  {
    hide Comma;
    if names == [] {
    } else if |names| == 1 {
      assert names[0] + [] == names[0];
      CommaAfter(names[0], []);
      assert names == [names[0]];
    } else {
      var tail := [COMMA] + Join(names[1..]);
      assert Join(names) == names[0] + tail;
      CommaAfter(names[0], tail);
      assert Join(names)[|names[0]| + 1..] == Join(names[1..]);
      ItemsOfJoin(names[1..]);
      assert names == [names[0]] + names[1..];
    }
  }

  /** The part of the server's list that is looked at. */
  function Served(server: seq<byte>): seq<seq<byte>> {
    var items := Items(server);
    if |items| <= MAX_PROP then items else items[..MAX_PROP]
  }

  function FirstIn(xs: seq<seq<byte>>, ys: seq<seq<byte>>): Option<seq<byte>> {
    if xs == [] then None else if xs[0] in ys then Some(xs[0]) else FirstIn(xs[1..], ys)
  }

  /** match_list */
  function Match(client: seq<byte>, server: seq<byte>): Option<seq<byte>> {
    FirstIn(Items(client), Served(server))
  }

  /** The client's earliest name among the server's first forty; None exactly when there is none. */
  lemma {:induction false} FirstInSpec(xs: seq<seq<byte>>, ys: seq<seq<byte>>)
    ensures FirstIn(xs, ys) == None <==> forall i :: 0 <= i < |xs| ==> xs[i] !in ys
    ensures FirstIn(xs, ys).Some? ==>
              exists i :: 0 <= i < |xs| && xs[i] == FirstIn(xs, ys).value && xs[i] in ys &&
                          forall j :: 0 <= j < i ==> xs[j] !in ys
  {
    if xs != [] {
      var rest := xs[1..];
      FirstInSpec(rest, ys);
      if xs[0] !in ys && FirstIn(rest, ys).Some? {
        var i :| 0 <= i < |rest| && rest[i] == FirstIn(rest, ys).value && rest[i] in ys &&
                 forall j :: 0 <= j < i ==> rest[j] !in ys;
        assert xs[i + 1] == rest[i];
        forall j | 0 <= j < i + 1
          ensures xs[j] !in ys
        {
          if j > 0 {
            assert xs[j] == rest[j - 1];
          }
        }
      }
    }
  }

  // ----- The loops

  method FindComma(s: seq<byte>) returns (n: nat)
    ensures n == Comma(s)
  {
    n := 0;
    while n < |s| && s[n] != COMMA
      invariant n <= |s| && COMMA !in s[..n]
    {
      n := n + 1;
    }
    assert s[..n] + s[n..] == s;
    CommaAfter(s[..n], s[n..]);
  }

  /** What is still to come of a list whose separator has, or has not, been seen. */
  function Remaining(rest: seq<byte>, more: bool): seq<seq<byte>> {
    if more then Items(rest) else []
  }

  lemma RemainingStep(rest: seq<byte>)
    ensures var n := Comma(rest);
            Remaining(rest, true) ==
            if n == 0 then [] else [rest[..n]] + Remaining(if n < |rest| then rest[n + 1..] else rest, n < |rest|)
  {
    hide Comma;
  }

  lemma Regroup(names: seq<seq<byte>>, x: seq<byte>, after: seq<seq<byte>>)
    ensures names + ([x] + after) == names + [x] + after
  {
  }

  lemma ServedSplit(names: seq<seq<byte>>, after: seq<seq<byte>>, server: seq<byte>)
    requires names + after == Items(server)
    requires |names| <= MAX_PROP && (after == [] || |names| == MAX_PROP)
    ensures names == Served(server)
  {
    hide Items;
    assert names == Items(server)[..|names|];
  }

  /** The server's names, at most forty of them. */
  method Split(server: seq<byte>) returns (names: seq<seq<byte>>)
    ensures names == Served(server)
  {
    hide Comma, Items, Served;
    names := [];
    var rest, more := server, true;
    assert [] + Remaining(server, true) == Items(server);
    while more
      invariant |names| <= MAX_PROP && names + Remaining(rest, more) == Items(server)
      decreases if more then |rest| + 1 else 0
    {
      var n := FindComma(rest);
      RemainingStep(rest);
      if n == 0 || |names| == MAX_PROP {
        break;
      }
      Regroup(names, rest[..n], Remaining(if n < |rest| then rest[n + 1..] else rest, n < |rest|));
      names := names + [rest[..n]];
      more := n < |rest|;
      if more {
        rest := rest[n + 1..];
      }
    }
    ServedSplit(names, Remaining(rest, more), server);
  }

  method Contains(names: seq<seq<byte>>, p: seq<byte>) returns (found: bool)
    ensures found == (p in names)
  {
    for j := 0 to |names|
      invariant p !in names[..j]
    {
      if p == names[j] {
        return true;
      }
    }
    assert names[..|names|] == names;
    found := false;
  }

  method Choose(client: seq<byte>, server: seq<byte>) returns (name: Option<seq<byte>>)
    ensures name == Match(client, server)
  {
    hide Comma, Served;
    var names := Split(server);
    var rest, more := client, true;
    while more
      invariant Match(client, server) == if more then FirstIn(Items(rest), names) else None
      decreases if more then |rest| + 1 else 0
    {
      var n := FindComma(rest);
      if n == 0 {
        return None;
      }
      var found := Contains(names, rest[..n]);
      assert Items(rest)[0] == rest[..n];
      if found {
        return Some(rest[..n]);
      }
      assert Items(rest)[1..] == if n < |rest| then Items(rest[n + 1..]) else [];
      more := n < |rest|;
      if more {
        rest := rest[n + 1..];
      }
    }
    name := None;
  }
}
