/** What the callbacks of both parsers have in common. */
module Callbacks {

  import opened Wrappers
  import opened HttpText
  import opened HttpMessage

  const INVALID_VERSION: int := 1001
  const INVALID_FIELD: int := 1002

  /** The message under construction and the error code, 0 if there is none. */
  datatype Parsed<T> = Parsed(data: T, error: int)

  /** All callbacks, in the order in which the automaton makes them. */
  function All<X, E>(x: X, events: seq<E>, on: (X, E) -> X): X {
    if events == [] then x else on(All(x, events[..|events| - 1], on), events[|events| - 1])
  }

  lemma {:induction false} AllConcat<X, E>(x: X, a: seq<E>, b: seq<E>, on: (X, E) -> X)
    ensures All(x, a + b, on) == All(All(x, a, on), b, on)
  {
    if b == [] {
      assert a + b == a;
    } else {
      var front := b[..|b| - 1];
      AllConcat(x, a, front, on);
      assert (a + b)[..|a + b| - 1] == a + front;
    }
  }

  lemma AllPush<X, E>(x: X, events: seq<E>, e: E, on: (X, E) -> X)
    ensures All(x, events + [e], on) == on(All(x, events, on), e)
  {
    assert (events + [e])[..|events|] == events;
  }

  lemma AllOne<X, E>(x: X, e: E, on: (X, E) -> X)
    ensures All(x, [], on) == x && All(x, [e], on) == on(x, e)
  {
    AllPush(x, [], e, on);
    assert [] + [e] == [e];
  }

  lemma AllTwo<X, E>(x: X, e: E, f: E, on: (X, E) -> X)
    ensures All(x, [e, f], on) == on(on(x, e), f)
  {
    AllOne(x, e, on);
    AllPush(x, [e], f, on);
    assert [e] + [f] == [e, f];
  }

  /** The version a text starts with, if it is one of the two. */
  function VersionOf(text: string): Option<nat> {
    if MatchesVersion(text, "HTTP/1.1") then Some(0x11)
    else if MatchesVersion(text, "HTTP/1.0") then Some(0x10)
    else None
  }

  lemma VersionRead(version: nat)
    requires version == 0x10 || version == 0x11
    ensures VersionOf(VersionText(version)) == Some(version)
  {
    VersionMatches(version);
    hide VersionText, MatchesVersion;
  }

  /** The comparison stops at the end of the text, so a text cut short still counts as version 1.1. */
  lemma VersionIs(text: string)
    ensures VersionOf(text) == Some(0x11) <==> text <= "HTTP/1.1"
    ensures VersionOf(text) == Some(0x10) <==> text == "HTTP/1.0"
    ensures VersionOf(text).Some? ==> VersionOf(text).value == 0x11 || VersionOf(text).value == 0x10
  {
    var one, zero := "HTTP/1.1", "HTTP/1.0";
    if |text| <= 8 {
      assert |text| < 8 ==> one[..|text|] == one[..7][..|text|] && zero[..|text|] == zero[..7][..|text|];
      assert one[..7] == zero[..7] && one[7] != zero[7];
    }
  }

  /** One report for each header line. */
  function Reports<E>(lines: seq<HeaderLine>, field: (string, string) -> E): (events: seq<E>)
    ensures |events| == |lines| && forall i :: 0 <= i < |lines| ==> events[i] == field(lines[i].name, lines[i].value)
  {
    seq(|lines|, i requires 0 <= i < |lines| => field(lines[i].name, lines[i].value))
  }

  /** If every report sets a header, all of them set the lines in order. */
  lemma {:induction false} ReportsSet<X, E>(
      x: X, lines: seq<HeaderLine>, field: (string, string) -> E, on: (X, E) -> X, put: Headers -> X, h: Headers)
    requires x == put(h)
    requires forall i, g :: 0 <= i < |lines| ==>
      on(put(g), field(lines[i].name, lines[i].value)) == put(SetHeader(g, lines[i].name, lines[i].value))
    ensures All(x, Reports(lines, field), on) == put(SetAll(h, lines))
  {
    if lines != [] {
      var n := |lines| - 1;
      ReportsSet(x, lines[..n], field, on, put, h);
      assert Reports(lines, field)[..n] == Reports(lines[..n], field);
      assert lines[n] in lines;
    }
  }
}
