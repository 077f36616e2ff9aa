/** An incremental message parser, known only by how it frames a byte stream, and the
    messages that a stream consists of. */
module Framing {
  import opened Bytes

  /** Verdict on the bytes fed so far: more are needed, the first `size` of them are a
      message, or they cannot begin one. */
  datatype Verdict = More | Message(size: nat) | Bad

  /** `parseSSAPmsg_section` with `parseSSAPmsg_parsedbytecount`: the verdict depends on all
      sections fed to one message object, joined. */
  datatype Parser = Parser(frame: Str -> Verdict)
  {
    /** A message is recognised by its own bytes, is not empty, and no later byte changes a
        verdict once it is reached. */
    ghost predicate Lawful() {
      && frame([]) == More
      && (forall s: Str :: frame(s).Message? ==> 1 <= frame(s).size <= |s| && frame(s[..frame(s).size]) == frame(s))
      && (forall s: Str, t: Str :: frame(s) != More ==> frame(s + t) == frame(s))
    }
  }

  /** The messages of a stream, first to last. */
  ghost function Messages(p: Parser, s: Str): seq<Str>
    requires p.Lawful()
    decreases |s|
  {
    match p.frame(s)
    case Message(n) => [s[..n]] + Messages(p, s[n..])
    case _ => []
  }

  /** What follows the last message. */
  ghost function Rest(p: Parser, s: Str): Str
    requires p.Lawful()
    decreases |s|
  {
    match p.frame(s)
    case Message(n) => Rest(p, s[n..])
    case _ => s
  }

  /** More bytes never take a message back: they only extend what follows the last one. */
  lemma {:induction false} MessagesExtend(p: Parser, s: Str, t: Str)
    requires p.Lawful()
    ensures Messages(p, s + t) == Messages(p, s) + Messages(p, Rest(p, s) + t)
    decreases |s|
  {
    hide Parser.Lawful, Messages, Rest;
    FirstMessage(p, s, t);
    if p.frame(s).Message? {
      MessagesExtend(p, s[p.frame(s).size..], t);
    }
  }

  /** How the first verdict on `s` settles the messages of `s`, and of `s` with more bytes. */
  lemma FirstMessage(p: Parser, s: Str, t: Str)
    requires p.Lawful()
    ensures p.frame(s).Message? ==>
              var n := p.frame(s).size;
              && 0 < n <= |s| && Rest(p, s) == Rest(p, s[n..])
              && Messages(p, s) == [s[..n]] + Messages(p, s[n..])
              && Messages(p, s + t) == [s[..n]] + Messages(p, s[n..] + t)
    ensures !p.frame(s).Message? ==> Messages(p, s) == [] && Rest(p, s) == s
  {
    if p.frame(s).Message? {
      var n := p.frame(s).size;
      assert (s + t)[..n] == s[..n] && (s + t)[n..] == s[n..] + t;
    }
  }

  /** The messages and the rest make up the stream. */
  lemma {:induction false} NothingLost(p: Parser, s: Str)
    requires p.Lawful()
    ensures Flatten(Messages(p, s)) + Rest(p, s) == s
    decreases |s|
  {
    assert Flatten([]) == [];
    hide Parser.Lawful, Messages, Rest, Flatten;
    FirstMessage(p, s, []);
    if p.frame(s).Message? {
      var n := p.frame(s).size;
      NothingLost(p, s[n..]);
      Prepend(s[..n], Messages(p, s[n..]), Rest(p, s[n..]), s[n..]);
      assert s[..n] + s[n..] == s;
    }
  }

  lemma Prepend(m: Str, ms: seq<Str>, rest: Str, tail: Str)
    requires Flatten(ms) + rest == tail
    ensures Flatten([m] + ms) + rest == m + tail
  {
    assert ([m] + ms)[1..] == ms && Flatten([m] + ms) == m + Flatten(ms);
    hide Flatten;
    assert (m + Flatten(ms)) + rest == m + (Flatten(ms) + rest);
  }

  /** A stream of whole messages is framed into those messages. */
  lemma {:induction false} WholeMessages(p: Parser, ms: seq<Str>)
    requires p.Lawful() && forall i :: 0 <= i < |ms| ==> p.frame(ms[i]) == Message(|ms[i]|)
    ensures Messages(p, Flatten(ms)) == ms && Rest(p, Flatten(ms)) == []
  {
    if ms != [] {
      WholeMessages(p, ms[1..]);
      var s := Flatten(ms);
      assert p.frame(s) == Message(|ms[0]|);
      assert s[..|ms[0]|] == ms[0] && s[|ms[0]|..] == Flatten(ms[1..]);
    }
  }

  /** The laws can be met: every byte 0 ends a message. */
  function UpToZero(s: Str): Verdict {
    if s == [] then More
    else if s[0] == 0 then Message(1)
    else match UpToZero(s[1..])
         case Message(n) => Message(n + 1)
         case v => v
  }

  lemma {:induction false} UpToZeroLaws(s: Str, t: Str)
    ensures UpToZero(s).Message? ==>
              1 <= UpToZero(s).size <= |s| && UpToZero(s[..UpToZero(s).size]) == UpToZero(s)
    ensures UpToZero(s) != More ==> UpToZero(s + t) == UpToZero(s)
  {
    hide UpToZero;
    UpToZeroStep(s);
    if s != [] {
      UpToZeroStep(s + t);
      assert (s + t)[0] == s[0] && (s + t)[1..] == s[1..] + t;
      if s[0] == 0 {
        UpToZeroStep(s[..1]);
      } else {
        UpToZeroLaws(s[1..], t);
        UpToZeroCut(s);
      }
    }
  }

  lemma UpToZeroStep(s: Str)
    ensures UpToZero(s) ==
            if s == [] then More
            else if s[0] == 0 then Message(1)
            else match UpToZero(s[1..]) case Message(n) => Message(n + 1) case v => v
  {
  }

  lemma UpToZeroCut(s: Str)
    requires s != [] && s[0] != 0
    requires UpToZero(s[1..]).Message? ==>
               1 <= UpToZero(s[1..]).size <= |s| - 1 && UpToZero(s[1..][..UpToZero(s[1..]).size]) == UpToZero(s[1..])
    ensures UpToZero(s).Message? ==>
              1 <= UpToZero(s).size <= |s| && UpToZero(s[..UpToZero(s).size]) == UpToZero(s)
  {
    hide UpToZero;
    UpToZeroStep(s);
    if UpToZero(s).Message? {
      var n := UpToZero(s).size;
      assert s[..n][0] == s[0] && s[..n][1..] == s[1..][..n - 1];
      UpToZeroStep(s[..n]);
    }
  }

  lemma LawsAreConsistent()
    ensures Parser(UpToZero).Lawful()
  {
    forall s: Str, t: Str ensures UpToZero(s) != More ==> UpToZero(s + t) == UpToZero(s) { UpToZeroLaws(s, t); }
    forall s: Str
      ensures UpToZero(s).Message? ==>
                1 <= UpToZero(s).size <= |s| && UpToZero(s[..UpToZero(s).size]) == UpToZero(s)
    {
      UpToZeroLaws(s, []);
    }
  }
}
