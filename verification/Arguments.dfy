/** Splitting a legacy argument line. */
module LegacyArguments {
  import opened Wrappers

  const BACKSLASH := '\\'

  predicate IsQuote(c: char) {
    c == '\'' || c == '\"'
  }

  /** The Unicode White_Space characters. */
  predicate IsWhitespace(c: char) {
    || '\U{9}' <= c <= '\U{D}' || c == ' ' || c == '\U{85}' || c == '\U{A0}' || c == '\U{1680}'
    || '\U{2000}' <= c <= '\U{200A}' || c == '\U{2028}' || c == '\U{2029}' || c == '\U{202F}'
    || c == '\U{205F}' || c == '\U{3000}'
  }

  type Line = seq<char>

  function Flush(arguments: seq<Line>, current: Line): seq<Line> {
    if current == [] then arguments else arguments + [current]
  }

  datatype Scanner = Scanner(arguments: seq<Line>, current: Line, quote: Option<char>, escaped: bool)

  const START := Scanner([], [], None, false)

  /** One character. */
  function Advance(st: Scanner, c: char): Scanner {
    if st.escaped then st.(current := st.current + [c], escaped := false)
    else if c == BACKSLASH then st.(escaped := true)
    else if IsQuote(c) then
      if st.quote == Some(c) then st.(quote := None)
      else if st.quote.None? then st.(quote := Some(c))
      else st.(current := st.current + [c])
    else if IsWhitespace(c) && st.quote.None? then st.(arguments := Flush(st.arguments, st.current), current := [])
    else st.(current := st.current + [c])
  }

  function Feed(st: Scanner, value: Line): Scanner
    decreases |value|
  {
    if value == [] then st else Feed(Advance(st, value[0]), value[1..])
  }

  /** `None` is the "unterminated escape or quote" error. */
  function Finish(st: Scanner): Option<seq<Line>> {
    if st.escaped || st.quote.Some? then None else Some(Flush(st.arguments, st.current))
  }

  function Split(value: Line): Option<seq<Line>> {
    Finish(Feed(START, value))
  }

  /** `split_legacy_arguments`. */
  method SplitLegacyArguments(value: Line) returns (r: Option<seq<Line>>)
    ensures r == Split(value)
  {
    var arguments: seq<Line> := [];
    var current: Line := [];
    var quote: Option<char> := None;
    var escaped := false;
    assert value[0..] == value;
    for i := 0 to |value|
      invariant Feed(START, value) == Feed(Scanner(arguments, current, quote, escaped), value[i..])
    {
      var character := value[i];
      assert value[i..][1..] == value[i + 1..];
      if escaped {
        current := current + [character];
        escaped := false;
      } else if character == BACKSLASH {
        escaped := true;
      } else if IsQuote(character) {
        if quote == Some(character) {
          quote := None;
        } else if quote.None? {
          quote := Some(character);
        } else {
          current := current + [character];
        }
      } else if IsWhitespace(character) && quote.None? {
        if current != [] {
          arguments, current := arguments + [current], [];
        }
      } else {
        current := current + [character];
      }
    }
    assert value[|value|..] == [];
    if escaped || quote.Some? { return None; }
    if current != [] { arguments := arguments + [current]; }
    r := Some(arguments);
  }

  // ---- an independent grammar of argument lines

  datatype Inner = Raw(c: char) | EscapedInner(c: char)

  datatype Piece = Gap(c: char) | Plain(c: char) | Escaped(c: char) | Quoted(q: char, body: seq<Inner>)

  predicate InnerFits(q: char, x: Inner) {
    x.Raw? ==> x.c != BACKSLASH && x.c != q
  }

  predicate PieceFits(p: Piece) {
    match p
    case Gap(c) => IsWhitespace(c)
    case Plain(c) => c != BACKSLASH && !IsQuote(c) && !IsWhitespace(c)
    case Escaped(_) => true
    case Quoted(q, body) => IsQuote(q) && forall x :: x in body ==> InnerFits(q, x)
  }

  predicate Fits(pieces: seq<Piece>) {
    forall p :: p in pieces ==> PieceFits(p)
  }

  function InnerText(body: seq<Inner>): Line {
    if body == [] then []
    else (if body[0].Raw? then [body[0].c] else [BACKSLASH, body[0].c]) + InnerText(body[1..])
  }

  function InnerValue(body: seq<Inner>): Line {
    if body == [] then [] else [body[0].c] + InnerValue(body[1..])
  }

  function Text(p: Piece): Line {
    match p
    case Gap(c) => [c]
    case Plain(c) => [c]
    case Escaped(c) => [BACKSLASH, c]
    case Quoted(q, body) => [q] + InnerText(body) + [q]
  }

  /** How a line made of these pieces is written. */
  function Written(pieces: seq<Piece>): Line {
    if pieces == [] then [] else Text(pieces[0]) + Written(pieces[1..])
  }

  function Value(p: Piece): Line
    requires !p.Gap?
  {
    match p
    case Plain(c) => [c]
    case Escaped(c) => [c]
    case Quoted(_, body) => InnerValue(body)
  }

  /** What it means: gaps separate, everything else contributes its characters, empty words vanish. */
  function Meaning(pieces: seq<Piece>, word: Line): seq<Line> {
    if pieces == [] then Flush([], word)
    else if pieces[0].Gap? then Flush([], word) + Meaning(pieces[1..], [])
    else Meaning(pieces[1..], word + Value(pieces[0]))
  }

  lemma {:induction false} FeedAppend(st: Scanner, a: Line, b: Line)
    ensures Feed(st, a + b) == Feed(Feed(st, a), b)
    decreases |a|
  {
    if a == [] {
      assert a + b == b;
    } else {
      FeedAppend(Advance(st, a[0]), a[1..], b);
      assert (a + b)[1..] == a[1..] + b;
    }
  }

  lemma FeedOne(st: Scanner, c: char)
    ensures Feed(st, [c]) == Advance(st, c)
  {
    assert [c][1..] == [];
    assert Feed(Advance(st, c), []) == Advance(st, c);
  }

  lemma FeedTwo(st: Scanner, c: char, d: char)
    ensures Feed(st, [c, d]) == Advance(Advance(st, c), d)
  {
    assert [c, d] == [c] + [d];
    FeedAppend(st, [c], [d]);
    FeedOne(st, c);
    FeedOne(Advance(st, c), d);
  }

  /** The scanner between two pieces, or between two characters inside quotes. */
  ghost predicate Settled(st: Scanner, quote: Option<char>) {
    st.quote == quote && !st.escaped
  }

  lemma Assoc<T>(a: seq<T>, b: seq<T>, c: seq<T>)
    ensures a + b + c == a + (b + c)
  {
  }

  lemma {:induction false} FeedQuoted(st: Scanner, q: char, body: seq<Inner>)
    requires Settled(st, Some(q)) && IsQuote(q) && forall x :: x in body ==> InnerFits(q, x)
    ensures Feed(st, InnerText(body)) == st.(current := st.current + InnerValue(body))
    decreases |body|
  {
    if body == [] {
      assert st.current + [] == st.current;
    } else {
      var x := body[0];
      var text := if x.Raw? then [x.c] else [BACKSLASH, x.c];
      assert InnerFits(q, x);
      FeedAppend(st, text, InnerText(body[1..]));
      if x.Raw? { FeedOne(st, x.c); } else { FeedTwo(st, BACKSLASH, x.c); }
      var next := st.(current := st.current + [x.c]);
      assert Feed(st, text) == next;
      FeedQuoted(next, q, body[1..]);
      Assoc(st.current, [x.c], InnerValue(body[1..]));
    }
  }

  lemma FeedPiece(st: Scanner, p: Piece)
    requires Settled(st, None) && PieceFits(p)
    ensures p.Gap? ==> Feed(st, Text(p)) == st.(arguments := Flush(st.arguments, st.current), current := [])
    ensures !p.Gap? ==> Feed(st, Text(p)) == st.(current := st.current + Value(p))
  {
    match p {
      case Gap(c) =>
        assert c != BACKSLASH && !IsQuote(c);
        FeedOne(st, c);
      case Plain(c) => FeedOne(st, c);
      case Escaped(c) => FeedTwo(st, BACKSLASH, c);
      case Quoted(q, body) =>
        var inside := st.(quote := Some(q));
        FeedAppend(st, [q] + InnerText(body), [q]);
        FeedAppend(st, [q], InnerText(body));
        FeedOne(st, q);
        FeedQuoted(inside, q, body);
        FeedOne(inside.(current := st.current + InnerValue(body)), q);
    }
  }

  lemma {:induction false} FeedPieces(st: Scanner, pieces: seq<Piece>)
    requires Settled(st, None) && Fits(pieces)
    ensures Finish(Feed(st, Written(pieces))) == Some(st.arguments + Meaning(pieces, st.current))
    decreases |pieces|
  {
    if pieces == [] {
      FlushThen(st.arguments, st.current, []);
    } else {
      var p, rest := pieces[0], pieces[1..];
      var next := Feed(st, Text(p));
      FeedAppend(st, Text(p), Written(rest));
      FeedPiece(st, p);
      FeedPieces(next, rest);
      if p.Gap? { FlushThen(st.arguments, st.current, Meaning(rest, [])); }
    }
  }

  lemma FlushThen(arguments: seq<Line>, word: Line, more: seq<Line>)
    ensures Flush(arguments, word) + more == arguments + (Flush([], word) + more)
    ensures Flush(arguments, word) == arguments + Flush([], word)
  {
  }

  /** `pieces` account for what is still to be read; inside quotes `body` accounts for it up to the closing quote. */
  ghost predicate Explains(value: Line, quote: Option<char>, escaped: bool, pieces: seq<Piece>, body: seq<Inner>) {
    var text := if escaped then [BACKSLASH] + value else value;
    && Fits(pieces)
    && (match quote
        case None => text == Written(pieces) && (escaped ==> pieces != [] && pieces[0].Escaped?)
        case Some(q) =>
          && (forall x :: x in body ==> InnerFits(q, x))
          && text == InnerText(body) + [q] + Written(pieces)
          && (escaped ==> body != [] && body[0].EscapedInner?))
  }

  lemma PieceInFront(p: Piece, pieces: seq<Piece>, value: Line)
    requires PieceFits(p) && Fits(pieces) && value == Text(p) + Written(pieces)
    ensures Explains(value, None, false, [p] + pieces, [])
  {
    assert ([p] + pieces)[1..] == pieces;
  }

  lemma InnerInFront(q: char, x: Inner, body: seq<Inner>, pieces: seq<Piece>, value: Line)
    requires InnerFits(q, x) && (forall y :: y in body ==> InnerFits(q, y)) && Fits(pieces)
    requires value == (if x.Raw? then [x.c] else [BACKSLASH, x.c]) + (InnerText(body) + [q] + Written(pieces))
    ensures Explains(value, Some(q), false, pieces, [x] + body)
  {
    assert ([x] + body)[1..] == body;
  }

  lemma ExplainEscaped(c: char, rest: Line, quote: Option<char>, pieces: seq<Piece>, body: seq<Inner>)
    returns (ps: seq<Piece>, b: seq<Inner>)
    requires Explains(rest, quote, false, pieces, body)
    ensures Explains([c] + rest, quote, true, ps, b)
  {
    Assoc([BACKSLASH], [c], rest);
    if quote.None? {
      ps, b := [Escaped(c)] + pieces, body;
      PieceInFront(Escaped(c), pieces, [BACKSLASH, c] + rest);
    } else {
      ps, b := pieces, [EscapedInner(c)] + body;
      InnerInFront(quote.value, EscapedInner(c), body, pieces, [BACKSLASH, c] + rest);
    }
  }

  lemma ExplainInQuotes(c: char, rest: Line, q: char, pieces: seq<Piece>, body: seq<Inner>)
    returns (ps: seq<Piece>, b: seq<Inner>)
    requires c != BACKSLASH && Explains(rest, if c == q then None else Some(q), false, pieces, body)
    ensures Explains([c] + rest, Some(q), false, ps, b)
  {
    if c == q {
      ps, b := pieces, [];
      assert [c] + rest == InnerText([]) + [c] + Written(pieces);
    } else {
      ps, b := pieces, [Raw(c)] + body;
      InnerInFront(q, Raw(c), body, pieces, [c] + rest);
    }
  }

  lemma ExplainBetween(c: char, rest: Line, pieces: seq<Piece>, body: seq<Inner>) returns (ps: seq<Piece>)
    requires c != BACKSLASH && Explains(rest, if IsQuote(c) then Some(c) else None, false, pieces, body)
    ensures Explains([c] + rest, None, false, ps, [])
  {
    if IsQuote(c) {
      var inner, tail := InnerText(body), Written(pieces);
      assert rest == inner + [c] + tail;
      assert [c] + (inner + [c] + tail) == ([c] + inner + [c]) + tail;
      ps := [Quoted(c, body)] + pieces;
      PieceInFront(Quoted(c, body), pieces, [c] + rest);
    } else if IsWhitespace(c) {
      ps := [Gap(c)] + pieces;
      PieceInFront(Gap(c), pieces, [c] + rest);
    } else {
      ps := [Plain(c)] + pieces;
      PieceInFront(Plain(c), pieces, [c] + rest);
    }
  }

  /** Reading one character backwards: from an explanation of the rest to one of the whole. */
  lemma ExplainOneMore(c: char, rest: Line, st: Scanner, pieces: seq<Piece>, body: seq<Inner>)
    returns (ps: seq<Piece>, b: seq<Inner>)
    requires st.quote.Some? ==> IsQuote(st.quote.value)
    requires Explains(rest, Advance(st, c).quote, Advance(st, c).escaped, pieces, body)
    ensures Explains([c] + rest, st.quote, st.escaped, ps, b)
  {
    if st.escaped {
      ps, b := ExplainEscaped(c, rest, st.quote, pieces, body);
    } else if c == BACKSLASH {
      ps, b := pieces, body;
    } else if st.quote.Some? {
      ps, b := ExplainInQuotes(c, rest, st.quote.value, pieces, body);
    } else {
      ps := ExplainBetween(c, rest, pieces, body);
      b := [];
    }
  }

  lemma {:induction false} AcceptedLinesParse(value: Line, st: Scanner) returns (pieces: seq<Piece>, body: seq<Inner>)
    requires Finish(Feed(st, value)).Some? && (st.quote.Some? ==> IsQuote(st.quote.value))
    ensures Explains(value, st.quote, st.escaped, pieces, body)
    decreases |value|
  {
    if value == [] {
      pieces, body := [], [];
    } else {
      pieces, body := AcceptedLinesParse(value[1..], Advance(st, value[0]));
      pieces, body := ExplainOneMore(value[0], value[1..], st, pieces, body);
      assert [value[0]] + value[1..] == value;
    }
  }

  /** The scanner accepts exactly the lines of the grammar and gives each its meaning. */
  lemma SplitFollowsGrammar(value: Line)
    ensures Split(value).Some? <==> exists pieces :: Fits(pieces) && Written(pieces) == value
    ensures forall pieces :: Fits(pieces) && Written(pieces) == value ==> Split(value) == Some(Meaning(pieces, []))
  {
    forall pieces | Fits(pieces) && Written(pieces) == value ensures Split(value) == Some(Meaning(pieces, [])) {
      FeedPieces(START, pieces);
      assert [] + Meaning(pieces, []) == Meaning(pieces, []);
    }
    if Split(value).Some? {
      var pieces, _ := AcceptedLinesParse(value, START);
    }
  }

  // ---- quoting and splitting again

  /** A double-quoted argument with the two special characters escaped. */
  function Quote(argument: Line): Line {
    Text(Quoted('\"', Escapes(argument)))
  }

  function Escapes(argument: Line): seq<Inner> {
    if argument == [] then []
    else
      var c := argument[0];
      [if c == BACKSLASH || c == '\"' then EscapedInner(c) else Raw(c)] + Escapes(argument[1..])
  }

  function QuoteAll(arguments: seq<Line>): Line {
    if arguments == [] then [] else Quote(arguments[0]) + [' '] + QuoteAll(arguments[1..])
  }

  function NonEmpty(arguments: seq<Line>): seq<Line> {
    if arguments == [] then []
    else (if arguments[0] == [] then [] else [arguments[0]]) + NonEmpty(arguments[1..])
  }

  lemma {:induction false} EscapesKeepValue(argument: Line)
    ensures InnerValue(Escapes(argument)) == argument
    ensures forall x :: x in Escapes(argument) ==> InnerFits('\"', x)
  {
    if argument != [] {
      EscapesKeepValue(argument[1..]);
      assert argument == [argument[0]] + argument[1..];
    }
  }

  function QuotedPieces(arguments: seq<Line>): seq<Piece> {
    if arguments == [] then [] else [Quoted('\"', Escapes(arguments[0])), Gap(' ')] + QuotedPieces(arguments[1..])
  }

  lemma QuotedArgumentFits(argument: Line)
    ensures PieceFits(Quoted('\"', Escapes(argument))) && PieceFits(Gap(' '))
    ensures Value(Quoted('\"', Escapes(argument))) == argument
  {
    EscapesKeepValue(argument);
  }

  lemma {:induction false} QuotedPiecesMean(arguments: seq<Line>)
    ensures Fits(QuotedPieces(arguments)) && Written(QuotedPieces(arguments)) == QuoteAll(arguments)
    ensures Meaning(QuotedPieces(arguments), []) == NonEmpty(arguments)
  {
    if arguments != [] {
      var quoted, more := Quoted('\"', Escapes(arguments[0])), QuotedPieces(arguments[1..]);
      var pieces := [quoted, Gap(' ')] + more;
      QuotedPiecesMean(arguments[1..]);
      QuotedArgumentFits(arguments[0]);
      assert pieces[1..] == [Gap(' ')] + more && pieces[1..][1..] == more;
      assert Written(pieces[1..]) == [' '] + Written(more);
      assert Written(pieces) == Quote(arguments[0]) + ([' '] + Written(more));
      assert [] + arguments[0] == arguments[0];
      assert Meaning(pieces, []) == Meaning(pieces[1..], arguments[0]);
      assert Meaning(pieces[1..], arguments[0]) == Flush([], arguments[0]) + Meaning(more, []);
    }
  }

  /** Quoting any list of arguments and splitting the line returns the list without its empty members. */
  lemma QuoteThenSplit(arguments: seq<Line>)
    ensures Split(QuoteAll(arguments)) == Some(NonEmpty(arguments))
  {
    QuotedPiecesMean(arguments);
    SplitFollowsGrammar(QuoteAll(arguments));
  }

  /** So the round trip is exact for exactly the lists without empty arguments. */
  lemma RoundTripIsExactWithoutEmptyArguments(arguments: seq<Line>)
    ensures Split(QuoteAll(arguments)) == Some(arguments) <==> [] !in arguments
  {
    QuoteThenSplit(arguments);
    NonEmptyIsExact(arguments);
  }

  lemma {:induction false} NonEmptyIsExact(arguments: seq<Line>)
    ensures NonEmpty(arguments) == arguments <==> [] !in arguments
    ensures |NonEmpty(arguments)| <= |arguments|
  {
    if arguments != [] {
      NonEmptyIsExact(arguments[1..]);
      assert arguments == [arguments[0]] + arguments[1..];
    }
  }
}

/** Replacing `${name}` placeholders. */
module Substitution {
  import opened Wrappers
  import opened Ordering

  /** Leftmost, non-overlapping replacement, as the standard library's string replacement does it. */
  function Replace(text: string, pattern: string, value: string): string
    requires pattern != []
    decreases |text|
  {
    if text == [] then []
    else if pattern <= text then value + Replace(text[|pattern|..], pattern, value)
    else [text[0]] + Replace(text[1..], pattern, value)
  }

  function Placeholder(name: string): string {
    "${" + name + "}"
  }

  function ReplaceAll(text: string, names: seq<string>, variables: map<string, string>): string
    requires forall n :: n in names ==> n in variables
    decreases |names|
  {
    if names == [] then text
    else ReplaceAll(Replace(text, Placeholder(names[0]), variables[names[0]]), names[1..], variables)
  }

  lemma NoPassYet(text: string, names: seq<string>, variables: map<string, string>)
    requires forall n :: n in names ==> n in variables
    ensures ReplaceAll(text, names[0..], variables) == ReplaceAll(text, names, variables)
  {
    assert names[0..] == names;
  }

  lemma NoPassLeft(text: string, names: seq<string>, variables: map<string, string>)
    requires forall n :: n in names ==> n in variables
    ensures ReplaceAll(text, names[|names|..], variables) == text
  {
    assert names[|names|..] == [];
  }

  lemma NextPass(text: string, names: seq<string>, i: nat, variables: map<string, string>)
    requires i < |names| && forall n :: n in names ==> n in variables
    ensures ReplaceAll(text, names[i..], variables)
         == ReplaceAll(Replace(text, Placeholder(names[i]), variables[names[i]]), names[i + 1..], variables)
  {
    assert names[i..][1..] == names[i + 1..];
  }

  /** `substitute`: one pass over the text per variable, in map order. */
  method Substitute(value: string, variables: map<string, string>) returns (result: string)
    ensures result == ReplaceAll(value, Ascending(variables.Keys), variables)
  {
    var names := Ascending(variables.Keys);
    result := value;
    NoPassYet(value, names, variables);
    for i := 0 to |names|
      invariant ReplaceAll(value, names, variables) == ReplaceAll(result, names[i..], variables)
    {
      NextPass(result, names, i, variables);
      result := Replace(result, Placeholder(names[i]), variables[names[i]]);
    }
    NoPassLeft(result, names, variables);
  }

  // ---- templates

  datatype Part = Text(text: string) | Hole(name: string)

  /** Dollar signs only begin placeholders, and a placeholder ends at its first closing brace. */
  predicate PartFits(p: Part) {
    match p
    case Text(text) => '$' !in text
    case Hole(name) => '$' !in name && '}' !in name
  }

  predicate Fits(parts: seq<Part>) {
    forall p :: p in parts ==> PartFits(p)
  }

  function Rendered(p: Part): string {
    match p
    case Text(text) => text
    case Hole(name) => Placeholder(name)
  }

  function Render(parts: seq<Part>): string {
    if parts == [] then [] else Rendered(parts[0]) + Render(parts[1..])
  }

  function Filled(p: Part, variables: map<string, string>): string {
    if p.Hole? && p.name in variables then variables[p.name] else Rendered(p)
  }

  /** Simultaneous substitution: every placeholder looks its own name up, once. */
  function Simultaneous(parts: seq<Part>, variables: map<string, string>): string {
    if parts == [] then [] else Filled(parts[0], variables) + Simultaneous(parts[1..], variables)
  }

  function FillPart(p: Part, name: string, value: string): Part {
    if p == Hole(name) then Text(value) else p
  }

  function FillOne(parts: seq<Part>, name: string, value: string): seq<Part> {
    if parts == [] then [] else [FillPart(parts[0], name, value)] + FillOne(parts[1..], name, value)
  }

  /** One string begins with the other. */
  predicate Comparable(a: string, b: string) {
    a <= b || b <= a
  }

  /** No dollar sign in the text can become the start of this placeholder, whatever follows the text. */
  predicate Inert(text: string, name: string) {
    forall k :: 0 <= k < |text| && text[k] == '$' ==> !Comparable(text[k..], Placeholder(name))
  }

  lemma InertRest(text: string, name: string)
    requires text != [] && Inert(text, name)
    ensures Inert(text[1..], name)
  {
    forall k | 0 <= k < |text[1..]| && text[1..][k] == '$' ensures !Comparable(text[1..][k..], Placeholder(name)) {
      assert text[1..][k..] == text[k + 1..] && text[k + 1] == '$';
    }
  }

  lemma PrefixOfConcat(p: string, a: string, b: string)
    ensures p <= a + b ==> Comparable(a, p)
  {
    if p <= a + b {
      if |p| <= |a| { assert p == (a + b)[..|p|] == a[..|p|]; } else { assert a == (a + b)[..|a|] == p[..|a|]; }
    }
  }

  lemma InertHead(text: string, rest: string, name: string)
    requires text != [] && Inert(text, name)
    ensures !(Placeholder(name) <= text + rest)
  {
    PrefixOfConcat(Placeholder(name), text, rest);
    assert text[0..] == text && (text + rest)[0] == text[0];
  }

  lemma {:induction false} ReplaceSkips(text: string, rest: string, name: string, value: string)
    requires Inert(text, name)
    ensures Replace(text + rest, Placeholder(name), value) == text + Replace(rest, Placeholder(name), value)
    decreases |text|
  {
    if text == [] {
      assert text + rest == rest;
    } else {
      InertHead(text, rest, name);
      InertRest(text, name);
      ReplaceSkips(text[1..], rest, name, value);
      assert (text + rest)[1..] == text[1..] + rest;
      assert [text[0]] + text[1..] == text;
    }
  }

  /** The position of a placeholder's closing brace tells its name. */
  lemma PlaceholderEnds(name: string, rest: string, i: nat)
    requires '}' !in name && i < |name| + 3
    ensures (Placeholder(name) + rest)[i] == Placeholder(name)[i]
    ensures i >= 2 ==> (Placeholder(name)[i] == '}' <==> i == |name| + 2)
    ensures 2 <= i < |name| + 2 ==> Placeholder(name)[i] == name[i - 2]
  {
  }

  /** Two placeholders agree on a prefix only if their names agree. */
  lemma PlaceholdersDiffer(a: string, b: string, rest: string)
    requires '}' !in a && '}' !in b && Placeholder(a) <= Placeholder(b) + rest
    ensures a == b
  {
    var whole := Placeholder(b) + rest;
    var k := if |a| <= |b| then |a| + 2 else |b| + 2;
    assert Placeholder(a)[k] == whole[k];
    PlaceholderEnds(a, "", k);
    PlaceholderEnds(b, rest, k);
    forall i | 0 <= i < |a| ensures a[i] == b[i] {
      assert Placeholder(a)[i + 2] == whole[i + 2];
      PlaceholderEnds(a, "", i + 2);
      PlaceholderEnds(b, rest, i + 2);
    }
  }

  lemma WithoutDollarIsInert(text: string, name: string)
    requires '$' !in text
    ensures Inert(text, name)
  {
  }

  lemma ReplaceHole(other: string, rest: string, name: string, value: string)
    requires '$' !in other && '}' !in other && '}' !in name
    ensures Replace(Placeholder(other) + rest, Placeholder(name), value)
         == (if other == name then value else Placeholder(other)) + Replace(rest, Placeholder(name), value)
  {
    var pattern, whole := Placeholder(name), Placeholder(other) + rest;
    if other == name {
      assert pattern <= whole && whole[|pattern|..] == rest;
    } else {
      if pattern <= whole { PlaceholdersDiffer(name, other, rest); }
      var tail := "{" + other + "}";
      assert whole[0] == '$' && whole[1..] == tail + rest;
      WithoutDollarIsInert(tail, name);
      ReplaceSkips(tail, rest, name, value);
      assert ['$'] + tail == Placeholder(other);
    }
  }

  /** Every dollar sign is that of a placeholder, or can never begin this one. */
  predicate Ready(parts: seq<Part>, name: string) {
    forall p :: p in parts ==> if p.Text? then Inert(p.text, name) else PartFits(p)
  }

  /** One pass fills exactly the holes of its name. */
  lemma {:induction false} ReplaceFillsHoles(parts: seq<Part>, name: string, value: string)
    requires Ready(parts, name) && '}' !in name
    ensures Replace(Render(parts), Placeholder(name), value) == Render(FillOne(parts, name, value))
    decreases |parts|
  {
    if parts != [] {
      var p, rest := parts[0], Render(parts[1..]);
      assert p in parts;
      ReplaceFillsHoles(parts[1..], name, value);
      if p.Text? { ReplaceSkips(p.text, rest, name, value); } else { ReplaceHole(p.name, rest, name, value); }
      var filled := FillOne(parts, name, value);
      assert filled[0] == FillPart(p, name, value) && filled[1..] == FillOne(parts[1..], name, value);
    }
  }

  lemma {:induction false} FilledParts(parts: seq<Part>, name: string, value: string)
    ensures forall p :: p in FillOne(parts, name, value) ==> p == Text(value) || (p in parts && p != Hole(name))
  {
    if parts != [] {
      FilledParts(parts[1..], name, value);
      assert parts == [parts[0]] + parts[1..];
    }
  }

  /** Replacing a placeholder by itself changes nothing. */
  lemma {:induction false} ReplaceByItself(text: string, pattern: string)
    requires pattern != []
    ensures Replace(text, pattern, pattern) == text
    decreases |text|
  {
    if text != [] {
      if pattern <= text {
        ReplaceByItself(text[|pattern|..], pattern);
        assert text == pattern + text[|pattern|..];
      } else {
        ReplaceByItself(text[1..], pattern);
        assert text == [text[0]] + text[1..];
      }
    }
  }

  /** Filling one hole first does not change what simultaneous substitution of the rest gives. */
  lemma {:induction false} FillThenSimultaneous(parts: seq<Part>, name: string, variables: map<string, string>, rest: map<string, string>)
    requires name in variables && name !in rest
    requires rest.Keys == variables.Keys - {name} && forall n :: n in rest ==> rest[n] == variables[n]
    ensures Simultaneous(FillOne(parts, name, variables[name]), rest) == Simultaneous(parts, variables)
  {
    if parts != [] {
      FillThenSimultaneous(parts[1..], name, variables, rest);
      assert FillOne(parts, name, variables[name])[1..] == FillOne(parts[1..], name, variables[name]);
    }
  }

  /** A variable that stands for its own placeholder may as well be missing. */
  lemma {:induction false} OwnPlaceholderIsNoVariable(parts: seq<Part>, name: string, variables: map<string, string>, rest: map<string, string>)
    requires name in variables && variables[name] == Placeholder(name)
    requires rest.Keys == variables.Keys - {name} && forall n :: n in rest ==> rest[n] == variables[n]
    ensures Simultaneous(parts, rest) == Simultaneous(parts, variables)
  {
    if parts != [] { OwnPlaceholderIsNoVariable(parts[1..], name, variables, rest); }
  }

  lemma {:induction false} NothingToFill(parts: seq<Part>)
    ensures Simultaneous(parts, map[]) == Render(parts)
  {
    if parts != [] { NothingToFill(parts[1..]); }
  }

  // ---- when a value disturbs a later pass

  /** The pass for `later` changes nothing, or finds nothing to change in this value. */
  predicate Leaves(variables: map<string, string>, value: string, later: string)
    requires later in variables
  {
    variables[later] == Placeholder(later) || Inert(value, later)
  }

  /** No value is disturbed by the pass of a later name in the list. */
  predicate UndisturbedList(names: seq<string>, variables: map<string, string>)
    requires forall n :: n in names ==> n in variables
  {
    forall i, j :: 0 <= i < j < |names| ==> Leaves(variables, variables[names[i]], names[j])
  }

  /** No value is disturbed by the pass of a name that sorts after its own. */
  predicate Undisturbed(variables: map<string, string>) {
    forall m, n :: m in variables && n in variables && m != n && AtOrBefore(m, n) ==> Leaves(variables, variables[m], n)
  }

  predicate ReadyForAll(parts: seq<Part>, names: seq<string>, variables: map<string, string>)
    requires forall n :: n in names ==> n in variables
  {
    forall n :: n in names ==> Ready(parts, n) || (variables[n] == Placeholder(n) && forall p :: p in parts && p.Hole? ==> PartFits(p))
  }

  predicate NoBrace(names: seq<string>) {
    forall n :: n in names ==> '}' !in n
  }

  lemma StillReady(parts: seq<Part>, names: seq<string>, variables: map<string, string>)
    requires names != [] && (forall n :: n in names ==> n in variables)
    requires ReadyForAll(parts, names, variables) && UndisturbedList(names, variables)
    ensures ReadyForAll(FillOne(parts, names[0], variables[names[0]]), names[1..], variables)
  {
    var value := variables[names[0]];
    var filled := FillOne(parts, names[0], value);
    FilledParts(parts, names[0], value);
    forall n | n in names[1..]
      ensures Ready(filled, n) || (variables[n] == Placeholder(n) && forall p :: p in filled && p.Hole? ==> PartFits(p))
    {
      var j :| 0 <= j < |names[1..]| && names[1..][j] == n;
      assert names[0 + 1 + j] == n && n in names;
      assert Leaves(variables, variables[names[0]], names[j + 1]);
    }
  }

  lemma ReadyNow(parts: seq<Part>, names: seq<string>, variables: map<string, string>)
    requires names != [] && (forall n :: n in names ==> n in variables) && ReadyForAll(parts, names, variables)
    ensures variables[names[0]] != Placeholder(names[0]) ==> Ready(parts, names[0])
    ensures ReadyForAll(parts, names[1..], variables)
  {
    assert names[0] in names && forall n :: n in names[1..] ==> n in names;
  }

  lemma UndisturbedRest(names: seq<string>, variables: map<string, string>)
    requires names != [] && (forall n :: n in names ==> n in variables) && UndisturbedList(names, variables)
    ensures UndisturbedList(names[1..], variables)
  {
    forall i, j | 0 <= i < j < |names[1..]| ensures Leaves(variables, variables[names[1..][i]], names[1..][j]) {
      assert names[1..][i] == names[i + 1] && names[1..][j] == names[j + 1];
    }
  }

  /** The first pass is done, the others are known to be right. */
  lemma AfterFirstPass(parts: seq<Part>, filled: seq<Part>, names: seq<string>, variables: map<string, string>, rest: map<string, string>)
    requires names != [] && forall n :: n in names ==> n in variables
    requires Replace(Render(parts), Placeholder(names[0]), variables[names[0]]) == Render(filled)
    requires ReplaceAll(Render(filled), names[1..], variables) == Simultaneous(filled, rest)
    ensures ReplaceAll(Render(parts), names, variables) == Simultaneous(filled, rest)
  {
  }

  lemma {:induction false} SequentialIsSimultaneousFor(parts: seq<Part>, names: seq<string>, variables: map<string, string>, left: map<string, string>)
    requires Distinct(names) && NoBrace(names)
    requires forall n :: n in names <==> n in left
    requires forall n :: n in left ==> n in variables && left[n] == variables[n]
    requires ReadyForAll(parts, names, variables) && UndisturbedList(names, variables)
    ensures ReplaceAll(Render(parts), names, variables) == Simultaneous(parts, left)
    decreases |names|
  {
    if names == [] {
      assert left == map[];
      NothingToFill(parts);
    } else {
      var name := names[0];
      var rest := left - {name};
      assert names == [name] + names[1..] && name !in names[1..] && name in names;
      UndisturbedRest(names, variables);
      ReadyNow(parts, names, variables);
      if variables[name] == Placeholder(name) {
        ReplaceByItself(Render(parts), Placeholder(name));
        SequentialIsSimultaneousFor(parts, names[1..], variables, rest);
        AfterFirstPass(parts, parts, names, variables, rest);
        OwnPlaceholderIsNoVariable(parts, name, left, rest);
      } else {
        var filled := FillOne(parts, name, variables[name]);
        ReplaceFillsHoles(parts, name, variables[name]);
        StillReady(parts, names, variables);
        SequentialIsSimultaneousFor(filled, names[1..], variables, rest);
        AfterFirstPass(parts, filled, names, variables, rest);
        FillThenSimultaneous(parts, name, left, rest);
      }
    }
  }

  function Restricted(variables: map<string, string>, names: seq<string>): map<string, string>
    requires forall n :: n in names ==> n in variables
  {
    map n | n in names :: variables[n]
  }

  /** The passes for any undisturbed list of names, on a template whose dollar signs only begin placeholders. */
  lemma PassesAreSimultaneous(parts: seq<Part>, names: seq<string>, variables: map<string, string>)
    requires Fits(parts) && Distinct(names) && NoBrace(names) && (forall n :: n in names ==> n in variables)
    requires UndisturbedList(names, variables)
    ensures ReplaceAll(Render(parts), names, variables) == Simultaneous(parts, Restricted(variables, names))
  {
    forall n | n in names ensures Ready(parts, n) {
      assert forall p :: p in parts ==> PartFits(p);
    }
    SequentialIsSimultaneousFor(parts, names, variables, Restricted(variables, names));
  }

  lemma NamesInOrder(variables: map<string, string>)
    ensures Undisturbed(variables) <==> UndisturbedList(Ascending(variables.Keys), variables)
  {
    var names := Ascending(variables.Keys);
    if Undisturbed(variables) {
      forall i, j | 0 <= i < j < |names| ensures Leaves(variables, variables[names[i]], names[j]) {
        AscendingIsSorted(variables.Keys, i, j);
        assert names[i] in names && names[j] in names;
      }
    }
    if UndisturbedList(names, variables) {
      forall m, n | m in variables && n in variables && m != n && AtOrBefore(m, n) ensures Leaves(variables, variables[m], n) {
        assert m in names && n in names;
        var i :| 0 <= i < |names| && names[i] == m;
        var j :| 0 <= j < |names| && names[j] == n;
        if j < i {
          AscendingIsSorted(variables.Keys, j, i);
          Antisymmetric(m, n);
        }
      }
    }
  }

  /** Replacing one after another equals replacing all at once when no value is disturbed by a later pass. */
  lemma UndisturbedIsSimultaneous(parts: seq<Part>, variables: map<string, string>)
    requires Fits(parts) && Undisturbed(variables) && forall n :: n in variables ==> '}' !in n
    ensures ReplaceAll(Render(parts), Ascending(variables.Keys), variables) == Simultaneous(parts, variables)
  {
    NamesInOrder(variables);
    PassesAreSimultaneous(parts, Ascending(variables.Keys), variables);
    assert Restricted(variables, Ascending(variables.Keys)) == variables;
  }

  predicate Harmless(variables: map<string, string>) {
    forall n :: n in variables ==> '}' !in n && '$' !in variables[n]
  }

  /**
   * In particular for every template whose dollar signs only begin placeholders and every map whose values
   * hold no dollar sign.
   */
  lemma SequentialIsSimultaneous(parts: seq<Part>, variables: map<string, string>)
    requires Fits(parts) && Harmless(variables)
    ensures ReplaceAll(Render(parts), Ascending(variables.Keys), variables) == Simultaneous(parts, variables)
  {
    UndisturbedIsSimultaneous(parts, variables);
  }

  /** A dollar sign that begins the placeholder of a later variable is expanded inside the earlier one's value. */
  lemma DollarInValueBreaksIt()
    ensures ReplaceAll(Render([Hole("a")]), ["a", "b"], map["a" := "${b}", "b" := "x"]) == "x"
    ensures Simultaneous([Hole("a")], map["a" := "${b}", "b" := "x"]) == "${b}"
  {
    var variables := map["a" := "${b}", "b" := "x"];
    assert [Hole("a")][1..] == [] && ["a", "b"][1..] == ["b"] && ["b"][1..] == [];
    assert Render([Hole("a")]) == "${a}";
    assert Replace("${a}", "${a}", "${b}") == "${b}" by { assert "${a}"[4..] == []; }
    assert Replace("${b}", "${b}", "x") == "x" by { assert "${b}"[4..] == []; }
    assert ReplaceAll("x", [], variables) == "x";
  }

  /**
   * Why names are taken without closing braces: the pattern of such a name reaches beyond the placeholder it starts
   * in. The launcher has no such name.
   */
  lemma BraceInNameBreaksIt()
    ensures ReplaceAll(Render([Hole("a"), Text("b}")]), ["a}b"], map["a}b" := "x"]) == "x"
    ensures Simultaneous([Hole("a"), Text("b}")], map["a}b" := "x"]) == "${a}b}"
  {
    var parts := [Hole("a"), Text("b}")];
    assert parts[1..] == [Text("b}")] && [Text("b}")][1..] == [] && ["a}b"][1..] == [];
    assert Render([Text("b}")]) == "b}" && Simultaneous([Text("b}")], map["a}b" := "x"]) == "b}";
    assert Render(parts) == "${a}b}" == Placeholder("a}b");
    assert Replace("${a}b}", "${a}b}", "x") == "x" by { assert "${a}b}"[6..] == []; }
    assert ReplaceAll("x", [], map["a}b" := "x"]) == "x";
  }

  // ---- and only then

  lemma {:induction false} ReplaceLength(text: string, pattern: string, value: string)
    requires pattern != []
    ensures |value| >= |pattern| ==> |Replace(text, pattern, value)| >= |text|
    ensures |value| <= |pattern| ==> |Replace(text, pattern, value)| <= |text|
    decreases |text|
  {
    if text != [] {
      if pattern <= text { ReplaceLength(text[|pattern|..], pattern, value); } else { ReplaceLength(text[1..], pattern, value); }
    }
  }

  /** A pass that finds its placeholder and replaces it by something else changes the text. */
  lemma {:induction false} ReplaceChanges(text: string, pattern: string, value: string, k: nat)
    requires pattern != [] && value != pattern && k <= |text| && pattern <= text[k..]
    ensures Replace(text, pattern, value) != text
    decreases |text|
  {
    assert text[0..] == text;
    if pattern <= text {
      var rest := text[|pattern|..];
      ReplaceLength(rest, pattern, value);
      var result := Replace(text, pattern, value);
      assert text == pattern + rest && result == value + Replace(rest, pattern, value);
      if |value| == |pattern| {
        assert result[..|value|] == value && text[..|value|] == pattern;
      }
    } else {
      assert k > 0;
      assert text[1..][k - 1..] == text[k..];
      ReplaceChanges(text[1..], pattern, value, k - 1);
      assert text == [text[0]] + text[1..];
      assert Replace(text, pattern, value)[1..] == Replace(text[1..], pattern, value);
    }
  }

  lemma {:induction false} ReplaceAllAppend(text: string, names: seq<string>, last: string, variables: map<string, string>)
    requires last in variables && forall n :: n in names ==> n in variables
    ensures ReplaceAll(text, names + [last], variables)
         == Replace(ReplaceAll(text, names, variables), Placeholder(last), variables[last])
    decreases |names|
  {
    if names == [] {
      assert (names + [last])[1..] == [];
    } else {
      assert (names + [last])[1..] == names[1..] + [last];
      ReplaceAllAppend(Replace(text, Placeholder(names[0]), variables[names[0]]), names[1..], last, variables);
    }
  }

  /** When all but the last name leave the values before them alone, it is the last one that disturbs. */
  lemma LastDisturbs(names: seq<string>, variables: map<string, string>) returns (i: nat)
    requires names != [] && (forall n :: n in names ==> n in variables)
    requires UndisturbedList(names[..|names| - 1], variables) && !UndisturbedList(names, variables)
    ensures i < |names| - 1 && !Leaves(variables, variables[names[i]], names[|names| - 1])
  {
    var front := names[..|names| - 1];
    forall a, b | 0 <= a < b < |front| ensures Leaves(variables, variables[names[a]], names[b]) {
      assert front[a] == names[a] && front[b] == names[b];
    }
    var a, b :| 0 <= a < b < |names| && !Leaves(variables, variables[names[a]], names[b]);
    i := a;
  }

  /** The first name whose pass disturbs an earlier value. */
  lemma {:induction false} FirstDisturber(names: seq<string>, variables: map<string, string>) returns (j: nat, i: nat)
    requires (forall n :: n in names ==> n in variables) && !UndisturbedList(names, variables)
    ensures i < j < |names| && !Leaves(variables, variables[names[i]], names[j]) && UndisturbedList(names[..j], variables)
    decreases |names|
  {
    var front := names[..|names| - 1];
    if UndisturbedList(front, variables) {
      i := LastDisturbs(names, variables);
      j := |names| - 1;
    } else {
      j, i := FirstDisturber(front, variables);
      assert front[..j] == names[..j];
    }
  }

  /** The text that completes a placeholder begun at the end of a value. */
  function Completion(value: string, k: nat, name: string): string
    requires k <= |value| && Comparable(value[k..], Placeholder(name))
  {
    if |value| - k < |Placeholder(name)| then Placeholder(name)[|value| - k..] else ""
  }

  lemma CompletionFits(value: string, k: nat, name: string)
    requires k < |value| && Comparable(value[k..], Placeholder(name)) && '$' !in name
    ensures '$' !in Completion(value, k, name)
    ensures Placeholder(name) <= (value + Completion(value, k, name))[k..]
  {
    var tail := Completion(value, k, name);
    assert (value + tail)[k..] == value[k..] + tail;
    assert forall i :: 1 <= i < |Placeholder(name)| ==> Placeholder(name)[i] != '$';
  }

  lemma HoleThenText(m: string, tail: string, variables: map<string, string>)
    requires m in variables
    ensures Simultaneous([Hole(m), Text(tail)], variables) == variables[m] + tail
  {
    var parts := [Hole(m), Text(tail)];
    assert parts[1..] == [Text(tail)] && [Text(tail)][1..] == [];
    assert Simultaneous(parts[1..], variables) == tail;
  }

  /** A template on which the pass of the disturbing name goes wrong. */
  lemma DisturbedPassDiffers(names: seq<string>, variables: map<string, string>, i: nat, j: nat) returns (parts: seq<Part>)
    requires Distinct(names) && NoBrace(names) && forall n :: n in names ==> n in variables && '$' !in n
    requires i < j < |names| && !Leaves(variables, variables[names[i]], names[j]) && UndisturbedList(names[..j], variables)
    ensures Fits(parts)
    ensures ReplaceAll(Render(parts), names[..j + 1], variables) != Simultaneous(parts, Restricted(variables, names[..j + 1]))
  {
    var front, m, n := names[..j], names[i], names[j];
    var value := variables[m];
    var k :| 0 <= k < |value| && value[k] == '$' && Comparable(value[k..], Placeholder(n));
    var tail := Completion(value, k, n);
    CompletionFits(value, k, n);
    parts := [Hole(m), Text(tail)];
    assert front[i] == m;
    assert names[..j + 1] == front + [n] && m in front && m in front + [n];
    assert m in names && n in names;
    PassesAreSimultaneous(parts, front, variables);
    HoleThenText(m, tail, Restricted(variables, front));
    HoleThenText(m, tail, Restricted(variables, front + [n]));
    LastPassChanges(Render(parts), front, n, variables, value + tail, k);
  }

  lemma LastPassChanges(text: string, front: seq<string>, n: string, variables: map<string, string>, between: string, k: nat)
    requires n in variables && variables[n] != Placeholder(n) && forall x :: x in front ==> x in variables
    requires ReplaceAll(text, front, variables) == between && k <= |between| && Placeholder(n) <= between[k..]
    ensures ReplaceAll(text, front + [n], variables) != between
  {
    ReplaceAllAppend(text, front, n, variables);
    ReplaceChanges(between, Placeholder(n), variables[n], k);
  }

  /** After every pass the text is the simultaneous substitution of the variables so far, for every template. */
  ghost predicate EveryPassIsSimultaneous(variables: map<string, string>) {
    forall parts, i :: Fits(parts) && 0 <= i <= |variables.Keys| ==> PassIsSimultaneous(parts, variables, i)
  }

  ghost predicate PassIsSimultaneous(parts: seq<Part>, variables: map<string, string>, i: nat)
    requires i <= |variables.Keys|
  {
    var names := Ascending(variables.Keys)[..i];
    ReplaceAll(Render(parts), names, variables) == Simultaneous(parts, Restricted(variables, names))
  }

  /**
   * For names without dollar signs and closing braces, every pass of the loop keeps the text equal to the
   * simultaneous substitution of the variables so far, on every template, exactly when no value is disturbed by
   * a later pass.
   */
  lemma EveryPassIsSimultaneousIffUndisturbed(variables: map<string, string>)
    requires forall n :: n in variables ==> '$' !in n && '}' !in n
    ensures EveryPassIsSimultaneous(variables) <==> Undisturbed(variables)
  {
    var names := Ascending(variables.Keys);
    NamesInOrder(variables);
    if Undisturbed(variables) {
      forall parts, i | Fits(parts) && 0 <= i <= |variables.Keys| ensures PassIsSimultaneous(parts, variables, i) {
        FrontIsUndisturbed(names, variables, i);
        PassesAreSimultaneous(parts, names[..i], variables);
      }
    } else {
      var j, i := FirstDisturber(names, variables);
      var parts := DisturbedPassDiffers(names, variables, i, j);
      assert !PassIsSimultaneous(parts, variables, j + 1);
    }
  }

  lemma FrontIsUndisturbed(names: seq<string>, variables: map<string, string>, i: nat)
    requires i <= |names| && Distinct(names) && NoBrace(names) && (forall n :: n in names ==> n in variables)
    requires UndisturbedList(names, variables)
    ensures Distinct(names[..i]) && NoBrace(names[..i]) && UndisturbedList(names[..i], variables)
  {
    FrontOf(names, variables, i);
  }

  ghost predicate FinalTextIsSimultaneous(variables: map<string, string>) {
    forall parts :: Fits(parts) ==> ReplaceAll(Render(parts), Ascending(variables.Keys), variables) == Simultaneous(parts, variables)
  }

  /** Every name but the last leaves the values before it alone: true of any two variables, for instance. */
  ghost predicate OnlyTheLastMayDisturb(variables: map<string, string>) {
    variables != map[] ==> UndisturbedList(Ascending(variables.Keys)[..|variables.Keys| - 1], variables)
  }

  lemma DisturbedFinalText(names: seq<string>, variables: map<string, string>) returns (parts: seq<Part>)
    requires names == Ascending(variables.Keys) && names != [] && forall n :: n in variables ==> '$' !in n && '}' !in n
    requires UndisturbedList(names[..|names| - 1], variables) && !UndisturbedList(names, variables)
    ensures Fits(parts) && ReplaceAll(Render(parts), names, variables) != Simultaneous(parts, variables)
  {
    var i := LastDisturbs(names, variables);
    WholeList(names, variables);
    parts := DisturbedPassDiffers(names, variables, i, |names| - 1);
  }

  lemma UndisturbedFinalText(variables: map<string, string>)
    requires Undisturbed(variables) && forall n :: n in variables ==> '}' !in n
    ensures FinalTextIsSimultaneous(variables)
  {
    forall parts | Fits(parts) ensures ReplaceAll(Render(parts), Ascending(variables.Keys), variables) == Simultaneous(parts, variables) {
      UndisturbedIsSimultaneous(parts, variables);
    }
  }

  lemma FinalTextRefuted(parts: seq<Part>, variables: map<string, string>)
    requires Fits(parts) && ReplaceAll(Render(parts), Ascending(variables.Keys), variables) != Simultaneous(parts, variables)
    ensures !FinalTextIsSimultaneous(variables)
  {
  }

  /** When no pass follows the one that may disturb, the final text tells: it is right for every template exactly when no value is disturbed. */
  lemma FinalTextIffUndisturbed(variables: map<string, string>)
    requires forall n :: n in variables ==> '$' !in n && '}' !in n
    requires OnlyTheLastMayDisturb(variables)
    ensures FinalTextIsSimultaneous(variables) <==> Undisturbed(variables)
  {
    if Undisturbed(variables) {
      UndisturbedFinalText(variables);
    } else {
      NamesInOrder(variables);
      var parts := DisturbedFinalText(Ascending(variables.Keys), variables);
      FinalTextRefuted(parts, variables);
    }
  }

  lemma WholeList(names: seq<string>, variables: map<string, string>)
    requires names == Ascending(variables.Keys) && names != []
    ensures names[..|names| - 1 + 1] == names && Restricted(variables, names) == variables
  {
  }

  lemma FrontOf(names: seq<string>, variables: map<string, string>, i: nat)
    requires i <= |names| && (forall n :: n in names ==> n in variables) && UndisturbedList(names, variables)
    ensures UndisturbedList(names[..i], variables)
  {
    forall a, b | 0 <= a < b < i ensures Leaves(variables, variables[names[..i][a]], names[..i][b]) {
      assert names[..i][a] == names[a] && names[..i][b] == names[b];
    }
  }

  // ---- what the final text alone cannot tell

  const UNDONE := map["a" := "$${b}", "b" := "{c}", "c" := "$${b}"]

  /** The template after the passes for `a` and `b`: two dollar signs and a hole have become a hole. */
  function AfterTwo(parts: seq<Part>): seq<Part> {
    if parts == [] then []
    else [if parts[0] == Hole("a") then Hole("c") else if parts[0] == Hole("b") then Text("{c}") else parts[0]] + AfterTwo(parts[1..])
  }

  lemma {:induction false} AfterTwoFits(parts: seq<Part>)
    requires Fits(parts)
    ensures Fits(AfterTwo(parts))
  {
    if parts != [] {
      assert parts == [parts[0]] + parts[1..];
      AfterTwoFits(parts[1..]);
    }
  }

  lemma DollarThenHole(rest: string)
    ensures Replace("$${b}" + rest, "${b}", "{c}") == "${c}" + Replace(rest, "${b}", "{c}")
  {
    var text := "$${b}" + rest;
    assert text[1] == '$' && !("${b}" <= text) by { assert "${b}"[1] == '{'; }
    assert text[1..] == Placeholder("b") + rest;
    ReplaceHole("b", rest, "b", "{c}");
    assert ['$'] + "{c}" == "${c}";
  }

  lemma {:induction false} SecondPass(parts: seq<Part>)
    requires Fits(parts)
    ensures Replace(Render(FillOne(parts, "a", "$${b}")), "${b}", "{c}") == Render(AfterTwo(parts))
    decreases |parts|
  {
    if parts != [] {
      var p, filled := parts[0], FillOne(parts, "a", "$${b}");
      assert p in parts && PartFits(p);
      SecondPass(parts[1..]);
      assert filled[1..] == FillOne(parts[1..], "a", "$${b}");
      var rest := Render(filled[1..]);
      assert Placeholder("b") == "${b}" && Placeholder("c") == "${c}";
      if p == Hole("a") {
        DollarThenHole(rest);
      } else if p.Text? {
        ReplaceSkips(p.text, rest, "b", "{c}");
      } else {
        ReplaceHole(p.name, rest, "b", "{c}");
      }
    }
  }

  lemma {:induction false} ThirdPassUndoes(parts: seq<Part>)
    ensures Render(FillOne(AfterTwo(parts), "c", "$${b}")) == Simultaneous(parts, UNDONE)
  {
    if parts != [] {
      ThirdPassUndoes(parts[1..]);
      var filled := FillOne(AfterTwo(parts), "c", "$${b}");
      assert AfterTwo(parts)[1..] == AfterTwo(parts[1..]);
      assert filled[1..] == FillOne(AfterTwo(parts[1..]), "c", "$${b}");
    }
  }

  lemma AscendingStartsWith(s: set<string>, m: string)
    requires IsLeast(m, s)
    ensures Ascending(s) == [m] + Ascending(s - {m})
  {
    LeastIs(s, m);
  }

  lemma LettersInOrder()
    ensures Ascending({"b", "c"}) == ["b", "c"]
  {
    AscendingStartsWith({"c"}, "c");
    assert {"c"} - {"c"} == {};
    AscendingStartsWith({"b", "c"}, "b");
    assert {"b", "c"} - {"b"} == {"c"};
  }

  lemma UndoneNames()
    ensures Ascending(UNDONE.Keys) == ["a", "b", "c"]
  {
    var abc := {"a", "b", "c"};
    AscendingStartsWith(abc, "a");
    assert abc - {"a"} == {"b", "c"};
    LettersInOrder();
    assert UNDONE.Keys == abc;
  }

  lemma LeastIs(s: set<string>, m: string)
    requires IsLeast(m, s)
    ensures Least(s) == m
  {
    Antisymmetric(Least(s), m);
  }

  lemma ThreePasses(text: string, variables: map<string, string>, a: string, b: string, c: string)
    requires a in variables && b in variables && c in variables
    ensures ReplaceAll(text, [a, b, c], variables) ==
            Replace(Replace(Replace(text, Placeholder(a), variables[a]), Placeholder(b), variables[b]), Placeholder(c), variables[c])
  {
    assert [a, b, c] == [a, b] + [c] && [a, b] == [a] + [b] && [a] == [] + [a];
    ReplaceAllAppend(text, [a, b], c, variables);
    ReplaceAllAppend(text, [a], b, variables);
    ReplaceAllAppend(text, [], a, variables);
  }

  lemma ThreePassesAreRight(parts: seq<Part>)
    requires Fits(parts)
    ensures Replace(Replace(Replace(Render(parts), Placeholder("a"), "$${b}"), "${b}", "{c}"), Placeholder("c"), "$${b}") == Simultaneous(parts, UNDONE)
  {
    FittingIsReady(parts, "a");
    ReplaceFillsHoles(parts, "a", "$${b}");
    SecondPass(parts);
    AfterTwoFits(parts);
    FittingIsReady(AfterTwo(parts), "c");
    ReplaceFillsHoles(AfterTwo(parts), "c", "$${b}");
    ThirdPassUndoes(parts);
  }

  lemma UndoneIsDisturbed()
    ensures !Undisturbed(UNDONE)
  {
    assert "$${b}"[1] == '$' && "$${b}"[1..] == Placeholder("b");
    assert !Inert(UNDONE["a"], "b");
    assert !Leaves(UNDONE, UNDONE["a"], "b") && AtOrBefore("a", "b");
  }

  lemma FinalTextOf(parts: seq<Part>, variables: map<string, string>)
    requires Fits(parts) && variables == UNDONE
    ensures ReplaceAll(Render(parts), ["a", "b", "c"], variables) == Simultaneous(parts, variables)
  {
    var text := Render(parts);
    ThreePasses(text, variables, "a", "b", "c");
    ThreePassesAreRight(parts);
    assert Placeholder("b") == "${b}";
  }

  /**
   * The final text alone does not tell: a later pass may restore by chance what an earlier one disturbed. With
   * these three variables the result is right for every template, although the pass for `b` goes wrong in between.
   */
  lemma ALaterPassMayUndo()
    ensures FinalTextIsSimultaneous(UNDONE) && !Undisturbed(UNDONE)
  {
    UndoneIsDisturbed();
    forall parts | Fits(parts) ensures ReplaceAll(Render(parts), Ascending(UNDONE.Keys), UNDONE) == Simultaneous(parts, UNDONE) {
      UndoneNames();
      FinalTextOf(parts, UNDONE);
    }
  }

  lemma FittingIsReady(parts: seq<Part>, name: string)
    requires Fits(parts)
    ensures Ready(parts, name)
  {
    assert forall p :: p in parts ==> PartFits(p);
  }
}
