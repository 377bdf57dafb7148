/**
  The configuration layer of Karma's `center[...]` output directive.

  Four policy structs pick the content generator, the field width and the
  padding generator that the centering engine `detail::center_generate`
  receives, and each builds a diagnostic description with `what`. Here the
  four structs are the four constructors of `Directive`:

    center[c]            Simple(c)
    center(w)[c]         Width(w, c)
    center(p)[c]         Padding(p, c)
    center(w, p)[c]      Full(w, p, c)

  Generators are values of an opaque type `G`. The engine is not visible at
  this layer, so every operation that needs it takes it as a parameter of
  type `Engine`; the sink, context, delimiter and parameter are opaque
  pass-through values of types `S`, `C`, `D` and `P`.
 */
module CenterAlignment {
  import opened Wrappers
  import opened LexicalCast

  /** `BOOST_KARMA_DEFAULT_FIELD_LENGTH` when the build does not predefine it. */
  const DefaultFieldLength: int := 10

  /** The padding character used when no padding generator is given. */
  const DefaultPadding: char := ' '

  /** A directive as the user writes it: the content is the generator inside `[...]`. */
  datatype Directive<G> =
    | Simple(content: G)
    | Width(width: int, content: G)
    | Padding(padding: G, content: G)
    | Full(width: int, padding: G, content: G)
  {
    predicate HasExplicitWidth() { Width? || Full? }
    predicate HasExplicitPadding() { Padding? || Full? }
  }

  /**
    The padding generator handed to the engine. The simple variant wraps the
    space in a generator component (`as_component(karma::domain(), ' ')`), the
    width variant passes the bare character, and the other two pass the
    caller's generator.
   */
  datatype Pad<G> = CharComponent(ch: char) | Char(ch: char) | Given(generator: G)

  /** The three values a directive hands to `center_generate`. */
  datatype Resolved<G> = Resolved(content: G, width: int, padding: Pad<G>)

  /** What the engine reports: its success flag and the sink after it ran. */
  datatype Outcome<S> = Outcome(ok: bool, sink: S)

  /** `detail::center_generate`, applied to (sink, context, delimiter, parameter, triple). */
  type Engine<!G, !S, -C, -D, -P> = (S, C, D, P, Resolved<G>) -> Outcome<S>

  /**
    The arguments each policy struct passes to the engine. The content is
    always the generator inside the brackets; a width or padding written by
    the user is passed on unchanged, and a missing one is replaced by the
    default field length or the space literal.
   */
  function Resolve<G>(d: Directive<G>): (r: Resolved<G>)
    ensures r.content == d.content
    ensures r.width == if d.HasExplicitWidth() then d.width else DefaultFieldLength
    ensures d.HasExplicitPadding() ==> r.padding == Given(d.padding)
    ensures d.Simple? ==> r.padding == CharComponent(DefaultPadding)
    ensures d.Width? ==> r.padding == Char(DefaultPadding)
  {
    match d
    case Simple(c) => Resolved(c, DefaultFieldLength, CharComponent(DefaultPadding))
    case Width(w, c) => Resolved(c, w, Char(DefaultPadding))
    case Padding(p, c) => Resolved(c, DefaultFieldLength, Given(p))
    case Full(w, p, c) => Resolved(c, w, Given(p))
  }

  /**
    `generate` of the four policy structs: the engine's result is returned
    as it is, so the directive neither fails nor writes on its own.
   */
  function Generate<G, S, C, D, P>(d: Directive<G>, centerGenerate: Engine<G, S, C, D, P>,
                                   sink: S, ctx: C, delim: D, param: P): (r: Outcome<S>)
    ensures r.ok == centerGenerate(sink, ctx, delim, param, Resolve(d)).ok
    ensures r.sink == centerGenerate(sink, ctx, delim, param, Resolve(d)).sink
  {
    centerGenerate(sink, ctx, delim, param, Resolve(d))
  }

  /** Two directives behave alike under every engine exactly when they resolve alike. */
  lemma BehaviourIsResolve<G, S, C, D, P>(d1: Directive<G>, d2: Directive<G>,
                                          sink: S, ctx: C, delim: D, param: P)
    ensures (forall e: Engine<G, S, C, D, P> ::
               Generate(d1, e, sink, ctx, delim, param) == Generate(d2, e, sink, ctx, delim, param))
            <==> Resolve(d1) == Resolve(d2)
  {
    if Resolve(d1) != Resolve(d2) {
      var probe: Engine<G, S, C, D, P> := (s: S, c: C, dl: D, p: P, r: Resolved<G>) => Outcome(r == Resolve(d1), s);
      assert Generate(d1, probe, sink, ctx, delim, param).ok;
      assert !Generate(d2, probe, sink, ctx, delim, param).ok;
    }
  }

  /**
    `center[c]` and `center(10)[c]` hand the engine the same content and
    width, and the space in two spellings; they generate alike exactly
    when the engine gives the same outcome for the two spellings.
   */
  lemma SimpleIsDefaultWidth<G, S, C, D, P>(c: G, e: Engine<G, S, C, D, P>,
                                            sink: S, ctx: C, delim: D, param: P)
    ensures Generate(Simple(c), e, sink, ctx, delim, param)
            == Generate(Width(DefaultFieldLength, c), e, sink, ctx, delim, param)
            <==> e(sink, ctx, delim, param, Resolved(c, DefaultFieldLength, CharComponent(DefaultPadding)))
                 == e(sink, ctx, delim, param, Resolved(c, DefaultFieldLength, Char(DefaultPadding)))
  {
  }

  /** The two can differ: an engine may reject one spelling. */
  lemma SimpleMayDifferFromDefaultWidth<G, S, C, D, P>(c: G, sink: S, ctx: C, delim: D, param: P)
    ensures exists e: Engine<G, S, C, D, P> ::
              Generate(Simple(c), e, sink, ctx, delim, param)
              != Generate(Width(DefaultFieldLength, c), e, sink, ctx, delim, param)
  {
    var e: Engine<G, S, C, D, P> := (s: S, x: C, dl: D, p: P, r: Resolved<G>) => Outcome(r.padding.CharComponent?, s);
    assert Generate(Simple(c), e, sink, ctx, delim, param).ok;
    assert !Generate(Width(DefaultFieldLength, c), e, sink, ctx, delim, param).ok;
  }

  /** `center(p)[c]` is `center(10, p)[c]`, under every engine. */
  lemma PaddingIsDefaultFull<G, S, C, D, P>(p: G, c: G, e: Engine<G, S, C, D, P>,
                                            sink: S, ctx: C, delim: D, param: P)
    ensures Generate(Padding(p, c), e, sink, ctx, delim, param)
            == Generate(Full(DefaultFieldLength, p, c), e, sink, ctx, delim, param)
  {
  }

  /**
    `what` of the four policy structs. `describe` gives each inner generator's
    own description (its director's `what`, the context fixed); the width is
    rendered by `lexical_cast`.
   */
  function What<G>(d: Directive<G>, describe: G -> string): (r: string)
    ensures |r| >= 8 && r[..6] == "center"
    ensures r[6] == '[' <==> d.Simple?
    ensures !d.Simple? ==> r[6] == '('
    ensures |r| >= |describe(d.content)| + 1
    ensures r[|r| - |describe(d.content)| - 1..] == describe(d.content) + "]"
  {
    match d
    case Simple(c) => "center[" + describe(c) + "]"
    case Width(w, c) => "center(" + Decimal(w) + ")[" + describe(c) + "]"
    case Padding(p, c) => "center(" + describe(p) + ")[" + describe(c) + "]"
    case Full(w, p, c) => "center(" + Decimal(w) + ", " + describe(p) + ")[" + describe(c) + "]"
  }

  /**
    Where each part of a description stands: the width's decimal text, the
    padding's description and the separators ")[" and ", " between the
    opening "center(" and the content's description.
   */
  lemma WhatLayout<G>(d: Directive<G>, describe: G -> string)
    ensures d.Simple? ==> |What(d, describe)| == 8 + |describe(d.content)|
    ensures d.Width? ==>
              var w := Decimal(d.width);
              && |What(d, describe)| == 10 + |w| + |describe(d.content)|
              && What(d, describe)[7..7 + |w|] == w
              && What(d, describe)[7 + |w|..9 + |w|] == ")["
    ensures d.Padding? ==>
              var p := describe(d.padding);
              && |What(d, describe)| == 10 + |p| + |describe(d.content)|
              && What(d, describe)[7..7 + |p|] == p
              && What(d, describe)[7 + |p|..9 + |p|] == ")["
    ensures d.Full? ==>
              var w, p := Decimal(d.width), describe(d.padding);
              && |What(d, describe)| == 12 + |w| + |p| + |describe(d.content)|
              && What(d, describe)[7..7 + |w|] == w
              && What(d, describe)[7 + |w|..9 + |w|] == ", "
              && What(d, describe)[9 + |w|..9 + |w| + |p|] == p
              && What(d, describe)[9 + |w| + |p|..11 + |w| + |p|] == ")["
  {
    var r, c := What(d, describe), describe(d.content);
    match d
    case Simple(_) =>
    case Width(w, _) =>
      assert r == "center(" + Decimal(w) + ")[" + c + "]";
      ParenLayout(Decimal(w), c);
    case Padding(p, _) =>
      assert r == "center(" + describe(p) + ")[" + c + "]";
      ParenLayout(describe(p), c);
    case Full(w, p, _) =>
      assert r == "center(" + Decimal(w) + ", " + describe(p) + ")[" + c + "]";
      PairLayout(Decimal(w), describe(p), c);
  }

  /** The layout of "center(" + x + ")[" + c + "]". */
  lemma ParenLayout(x: string, c: string)
    ensures var r := "center(" + x + ")[" + c + "]";
            && |r| == 10 + |x| + |c|
            && r[7..7 + |x|] == x
            && r[7 + |x|..9 + |x|] == ")["
  {
  }

  /** The layout of "center(" + w + ", " + p + ")[" + c + "]". */
  lemma PairLayout(w: string, p: string, c: string)
    ensures var r := "center(" + w + ", " + p + ")[" + c + "]";
            && |r| == 12 + |w| + |p| + |c|
            && r[7..7 + |w|] == w
            && r[7 + |w|..9 + |w|] == ", "
            && r[9 + |w|..9 + |w| + |p|] == p
            && r[9 + |w| + |p|..11 + |w| + |p|] == ")["
  {
  }

  predicate IsStop(ch: char) {
    ch == ')' || ch == ','
  }

  /** The index of the first ')' or ',' in `s`, or `|s|` when there is none. */
  function StopIndex(s: string): (k: nat)
    ensures k <= |s|
    ensures forall i :: 0 <= i < k ==> !IsStop(s[i])
    ensures k < |s| ==> IsStop(s[k])
  {
    if s == [] then 0 else if IsStop(s[0]) then 0 else 1 + StopIndex(s[1..])
  }

  lemma {:induction false} StopIndexAfter(t: string, x: string)
    requires forall i :: 0 <= i < |t| ==> !IsStop(t[i])
    requires |x| >= 1 && IsStop(x[0])
    ensures StopIndex(t + x) == |t|
  {
    if t != [] {
      assert (t + x)[1..] == t[1..] + x;
      StopIndexAfter(t[1..], x);
    } else {
      assert t + x == x;
    }
  }

  /**
    Reads the field width back out of a description: the decimal number
    between "center(" and the next ')' or ','.
   */
  function ParseWidth(s: string): Option<int> {
    if |s| < 7 || s[..7] != "center(" then None
    else
      var rest := s[7..];
      ParseDecimal(rest[..StopIndex(rest)])
  }

  /**
    The description names the width it was given: a directive with an
    explicit width can be read back to it, one with neither width nor
    padding argument shows no width at all.
   */
  lemma WidthIsRecoverable<G>(d: Directive<G>, describe: G -> string)
    ensures d.HasExplicitWidth() ==> ParseWidth(What(d, describe)) == Some(d.width)
    ensures d.Simple? ==> ParseWidth(What(d, describe)) == None
  {
    var s := What(d, describe);
    if d.HasExplicitWidth() {
      var dec := Decimal(d.width);
      var tail := if d.Width? then ")[" + describe(d.content) + "]"
                  else ", " + describe(d.padding) + ")[" + describe(d.content) + "]";
      assert s == "center(" + dec + tail;
      assert s[..7] == "center(";
      assert s[7..] == dec + tail;
      StopIndexAfter(dec, tail);
      assert (dec + tail)[..|dec|] == dec;
      ParseDecimalOfDecimal(d.width);
    } else if d.Simple? {
      assert s[6] == '[';
      assert s[..7] != "center(" by { assert s[..7][6] == '['; }
    }
  }

  /**
    The description alone does not fix the variant: a padding generator
    whose description reads as the number n yields the same text as the
    width n.
   */
  lemma PaddingMayReadAsWidth<G>(p: G, c: G, n: int, describe: G -> string)
    requires describe(p) == Decimal(n)
    ensures What(Padding(p, c), describe) == What(Width(n, c), describe)
  {
  }
}
