/** The buffered logger of include/kassert/internal/logger.hpp.

    A `Logger` collects everything streamed into it in a private buffer and
    hands the buffer to the underlying stream only when flushed, when the
    stream is requested, or when the logger is destroyed (`Close` here). The
    underlying stream is modelled as the text written to it so far. */
module Logging {
  import opened Values

  class Logger {
    /** The private `std::stringstream` buffer (set to boolalpha). */
    var buffer: string
    /** Everything the underlying stream has received. */
    var out: string

    /** Wraps a stream that has already received `sink`; the buffer starts
        empty. */
    constructor (sink: string)
      ensures buffer == "" && out == sink
    {
      buffer := "";
      out := sink;
    }

    /** `operator<<` applied to a string literal or a string: the text goes to
        the buffer only. */
    method Write(text: string)
      modifies this
      ensures buffer == old(buffer) + text
      ensures out == old(out)
    {
      buffer := buffer + text;
    }

    /** `operator<<` applied to any streamable value: scalars and strings go to
        the buffer directly, vectors and pairs through their own overloads. The
        underlying stream is untouched. */
    method Log(v: Value)
      requires Streamable(v)
      modifies this
      ensures buffer == old(buffer) + Render(v)
      ensures out == old(out)
      decreases v, 1
    {
      match v {
        case Seq(xs) => LogVector(xs);
        case Pair(a, c) => LogPair(a, c);
        case Int(_) => buffer := buffer + Render(v);
        case Bool(_) => buffer := buffer + Render(v);
        case Str(_) => buffer := buffer + Render(v);
      }
    }

    /** The vector overload: `[`, then each element preceded by `, ` unless it
        is the first, then `]`. */
    method LogVector(xs: seq<Value>)
      requires forall k :: 0 <= k < |xs| ==> Streamable(xs[k])
      modifies this
      ensures buffer == old(buffer) + Render(Seq(xs))
      ensures out == old(out)
      decreases Seq(xs), 0
    {
      var texts := ElementTexts(xs);
      ghost var start := buffer;
      Write("[");
      var first := true;
      var i := 0;
      while i < |xs|
        invariant 0 <= i <= |xs|
        invariant first <==> i == 0
        invariant buffer == start + "[" + Join(texts[..i])
        invariant out == old(out)
      {
        LogElement(xs[i], first);
        assert texts[i] == Render(xs[i]);
        JoinPrefixStep(start + "[", texts, i);
        first := false;
        i := i + 1;
      }
      assert texts[..|xs|] == texts;
      Write("]");
      Regroup3(start, "[", Join(texts), "]");
    }

    /** One pass of the vector overload's loop: the separator unless this is
        the first element, then the element. */
    method LogElement(x: Value, first: bool)
      requires Streamable(x)
      modifies this
      ensures buffer == old(buffer) + (if first then "" else ", ") + Render(x)
      ensures out == old(out)
      decreases x, 2
    {
      if !first {
        Write(", ");
      }
      Log(x);
    }

    /** The pair overload: `(first, second)`. */
    method LogPair(a: Value, c: Value)
      requires Streamable(a) && Streamable(c)
      modifies this
      ensures buffer == old(buffer) + Render(Pair(a, c))
      ensures out == old(out)
      decreases Pair(a, c), 0
    {
      ghost var start := buffer;
      Write("(");
      Log(a);
      Write(", ");
      Log(c);
      Write(")");
      Regroup5(start, "(", Render(a), ", ", Render(c), ")");
    }

    /** `flush`: the whole buffer is appended to the stream, and the buffer is
        emptied, so a second flush in a row appends nothing. */
    method Flush()
      modifies this
      ensures out == old(out) + old(buffer)
      ensures buffer == ""
    {
      out := out + buffer;
      buffer := "";
    }

    /** `stream()`: flushes, then hands out the underlying stream. */
    method Stream() returns (stream: string)
      modifies this
      ensures stream == out == old(out) + old(buffer)
      ensures buffer == ""
    {
      Flush();
      stream := out;
    }

    /** The destructor: a final flush. */
    method Close()
      modifies this
      ensures out == old(out) + old(buffer)
      ensures buffer == ""
    {
      Flush();
    }
  }

  /** Text appended to a buffer piece by piece equals the pieces appended at
      once, for three, four and five pieces. */
  lemma Regroup3(s: string, p1: string, p2: string, p3: string)
    ensures s + p1 + p2 + p3 == s + (p1 + p2 + p3)
  {
  }

  lemma Regroup4(s: string, p1: string, p2: string, p3: string, p4: string)
    ensures s + p1 + p2 + p3 + p4 == s + (p1 + p2 + p3 + p4)
  {
  }

  lemma Regroup5(s: string, p1: string, p2: string, p3: string, p4: string, p5: string)
    ensures s + p1 + p2 + p3 + p4 + p5 == s + (p1 + p2 + p3 + p4 + p5)
  {
  }

  /** `stringify_value` writing into a logger: the value's rendering, or the
      placeholder `<?>` when its type has no stream operator. */
  method StringifyInto(log: Logger, v: Value)
    requires Admissible(v)
    modifies log
    ensures log.buffer == old(log.buffer) + StringifyValue(v)
    ensures log.out == old(log.out)
  {
    if v.Opaque? {
      log.Write("<?>");
    } else {
      log.Log(v);
    }
  }

  /** Renders a streamed message through a fresh logger over an empty string
      stream and reads the stream back, as the throwing checks do with their
      message argument: the result is the fragments' renderings, in order. */
  method RenderMessage(message: seq<Value>) returns (text: string)
    requires forall k :: 0 <= k < |message| ==> Streamable(message[k])
    ensures text == MessageText(message)
  {
    var log := new Logger("");
    var i := 0;
    while i < |message|
      invariant 0 <= i <= |message|
      invariant log.buffer == MessageText(message[..i])
      invariant log.out == ""
    {
      log.Log(message[i]);
      assert message[..i + 1][..i] == message[..i];
      i := i + 1;
    }
    assert message[..|message|] == message;
    text := log.Stream();
  }

  /** A logger's whole life: the fragments streamed into it reach the
      underlying stream in order, as one contiguous piece after what the stream
      already held, and only when the logger is destroyed. */
  method LogAndClose(sink: string, fragments: seq<Value>) returns (before: string, after: string)
    requires forall k :: 0 <= k < |fragments| ==> Streamable(fragments[k])
    ensures before == sink
    ensures after == sink + MessageText(fragments)
  {
    var log := new Logger(sink);
    var i := 0;
    while i < |fragments|
      invariant 0 <= i <= |fragments|
      invariant log.buffer == MessageText(fragments[..i])
      invariant log.out == sink
    {
      log.Log(fragments[i]);
      assert fragments[..i + 1][..i] == fragments[..i];
      i := i + 1;
    }
    assert fragments[..|fragments|] == fragments;
    before := log.out;
    log.Close();
    after := log.out;
  }
}
