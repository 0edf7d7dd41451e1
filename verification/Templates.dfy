/** `${NAME}` expansion in configuration text: the scanning loop, and the token language it
    turns out to implement. */
module Templates {
  import opened Bytes

  /** The pieces of a template. `Unclosed` is a `${` with no `}` anywhere after it. */
  datatype Token = Literal(text: string) | Var(name: string) | Unclosed(text: string)

  type Lookup = string -> Option<string>

  predicate OpenAt(s: string, i: nat) {
    i + 1 < |s| && s[i] == '$' && s[i + 1] == '{'
  }

  /** The first `${` at or after `i`. */
  function FindOpen(s: string, i: nat): (r: Option<nat>)
    requires i <= |s|
    ensures r.Some? ==> i <= r.value && OpenAt(s, r.value)
    ensures forall j | i <= j < if r.Some? then r.value else |s| :: !OpenAt(s, j)
    decreases |s| - i
  {
    if i == |s| then None else if OpenAt(s, i) then Some(i) else FindOpen(s, i + 1)
  }

  /** The first `}` at or after `i`. */
  function FindClose(s: string, i: nat): (r: Option<nat>)
    requires i <= |s|
    ensures r.Some? ==> i <= r.value < |s| && s[r.value] == '}'
    ensures forall j | i <= j < if r.Some? then r.value else |s| :: s[j] != '}'
    decreases |s| - i
  {
    if i == |s| then None else if s[i] == '}' then Some(i) else FindClose(s, i + 1)
  }

  // ---------------------------------------------------------------- templates as tokens

  function RenderToken(t: Token): string {
    match t
    case Literal(text) => text
    case Var(name) => "${" + name + "}"
    case Unclosed(text) => "${" + text
  }

  function Render(ts: seq<Token>): string {
    if ts == [] then "" else RenderToken(ts[0]) + Render(ts[1..])
  }

  /** A variable becomes its value, or nothing when unset; values are not scanned again. */
  function ValueOf(lookup: Lookup, t: Token): string {
    match t
    case Literal(text) => text
    case Var(name) => lookup(name).GetOr("")
    case Unclosed(text) => "${" + text
  }

  function Value(lookup: Lookup, ts: seq<Token>): string {
    if ts == [] then "" else ValueOf(lookup, ts[0]) + Value(lookup, ts[1..])
  }

  /** The referenced names, in order, with repetitions. */
  function Names(ts: seq<Token>): seq<string> {
    if ts == [] then [] else (if ts[0].Var? then [ts[0].name] else []) + Names(ts[1..])
  }

  predicate WellFormedToken(t: Token) {
    match t
    case Literal(text) => text != "" && forall i: nat | i < |text| :: !OpenAt(text, i)
    case Var(name) => '}' !in name
    case Unclosed(text) => '}' !in text
  }

  /** Maximal literals, and nothing after an unclosed reference. */
  predicate WellFormed(ts: seq<Token>) {
    && (forall i | 0 <= i < |ts| :: WellFormedToken(ts[i]))
    && (forall i | 0 <= i < |ts| - 1 :: !ts[i].Unclosed? && !(ts[i].Literal? && ts[i + 1].Literal?))
  }

  /** The tokens of a text, as the scan finds them. */
  function Tokens(s: string): seq<Token>
    decreases |s|
  {
    match FindOpen(s, 0)
    case None => Lit(s)
    case Some(start) => Lit(s[..start]) + Reference(s[start + 2..])
  }

  function Lit(s: string): seq<Token> {
    if s == "" then [] else [Literal(s)]
  }

  /** From just after a `${`. */
  function Reference(after: string): seq<Token>
    decreases |after|
  {
    match FindClose(after, 0)
    case None => [Unclosed(after)]
    case Some(end) => [Var(after[..end])] + Tokens(after[end + 1..])
  }

  lemma Reassociate<T>(a: seq<T>, b: seq<T>, c: seq<T>)
    ensures a + (b + c) == a + b + c
  {
  }

  lemma {:induction false} RenderAppend(a: seq<Token>, b: seq<Token>)
    ensures Render(a + b) == Render(a) + Render(b)
    decreases |a|
  {
    hide RenderToken;
    if a == [] {
      assert a + b == b;
    } else {
      RenderAppend(a[1..], b);
      assert (a + b)[1..] == a[1..] + b;
      Reassociate(RenderToken(a[0]), Render(a[1..]), Render(b));
    }
  }

  lemma RenderCons(t: Token, ts: seq<Token>)
    ensures Render([t] + ts) == RenderToken(t) + Render(ts)
  {
    assert ([t] + ts)[1..] == ts;
  }

  lemma RenderOne(t: Token)
    ensures Render([t]) == RenderToken(t)
  {
    assert Render([t]) == RenderToken(t) + Render([]);
  }

  lemma SplitAtClose(after: string, end: nat)
    requires end < |after| && after[end] == '}'
    ensures "${" + after == ("${" + after[..end] + "}") + after[end + 1..]
  {
    assert after == after[..end] + "}" + after[end + 1..];
  }

  lemma SplitAtOpen(s: string, start: nat)
    requires OpenAt(s, start)
    ensures s == s[..start] + ("${" + s[start + 2..])
  {
    assert s[start..] == "${" + s[start + 2..];
  }

  /** Every text is the rendering of its tokens. */
  lemma {:induction false} RenderTokens(s: string)
    ensures Render(Tokens(s)) == s
    decreases |s|, 1
  {
    hide Render, Reference, Lit;
    match FindOpen(s, 0) {
      case None =>
        RenderLit(s);
      case Some(start) =>
        var after := s[start + 2..];
        RenderReference(after);
        RenderAppend(Lit(s[..start]), Reference(after));
        RenderLit(s[..start]);
        SplitAtOpen(s, start);
    }
  }

  lemma RenderLit(s: string)
    ensures Render(Lit(s)) == s
  {
    if s != "" {
      RenderOne(Literal(s));
    }
  }

  lemma {:induction false} RenderReference(after: string)
    ensures Render(Reference(after)) == "${" + after
    decreases |after|, 0
  {
    match FindClose(after, 0) {
      case None =>
        RenderOne(Unclosed(after));
      case Some(end) =>
        RenderTokens(after[end + 1..]);
        RenderCons(Var(after[..end]), Tokens(after[end + 1..]));
        SplitAtClose(after, end);
    }
  }

  /** The scan yields canonical tokens. */
  lemma {:induction false} TokensWellFormed(s: string)
    ensures WellFormed(Tokens(s))
    decreases |s|, 1
  {
    match FindOpen(s, 0) {
      case None =>
      case Some(start) =>
        ReferenceWellFormed(s[start + 2..]);
        forall i: nat | i < start ensures !OpenAt(s[..start], i) {
          assert !OpenAt(s, i);
        }
    }
  }

  lemma {:induction false} ReferenceWellFormed(after: string)
    ensures WellFormed(Reference(after))
    ensures Reference(after) != [] && !Reference(after)[0].Literal?
    decreases |after|, 0
  {
    match FindClose(after, 0) {
      case None =>
      case Some(end) =>
        TokensWellFormed(after[end + 1..]);
    }
  }

  lemma {:induction false} FirstOpen(s: string, i: nat, start: nat)
    requires i <= start && OpenAt(s, start)
    requires forall j: nat | i <= j < start :: !OpenAt(s, j)
    ensures FindOpen(s, i) == Some(start)
    decreases start - i
  {
    if i < start {
      FirstOpen(s, i + 1, start);
    }
  }

  lemma {:induction false} NoOpen(s: string, i: nat)
    requires i <= |s| && forall j: nat | i <= j :: !OpenAt(s, j)
    ensures FindOpen(s, i) == None
    decreases |s| - i
  {
    if i < |s| {
      NoOpen(s, i + 1);
    }
  }

  lemma {:induction false} FirstClose(s: string, i: nat, end: nat)
    requires i <= end < |s| && s[end] == '}'
    requires forall j: nat | i <= j < end :: s[j] != '}'
    ensures FindClose(s, i) == Some(end)
    decreases end - i
  {
    if i < end {
      FirstClose(s, i + 1, end);
    }
  }

  lemma LiteralEnds(text: string, after: string)
    requires forall i: nat | i < |text| :: !OpenAt(text, i)
    ensures var s := text + ("${" + after);
            FindOpen(s, 0) == Some(|text|) && s[..|text|] == text && s[|text| + 2..] == after
  {
    var s := text + ("${" + after);
    forall j: nat | j < |text| ensures !OpenAt(s, j) {
      assert !OpenAt(text, j);
    }
    FirstOpen(s, 0, |text|);
  }

  lemma TokensAfterLiteral(text: string, after: string)
    requires text != "" && forall i: nat | i < |text| :: !OpenAt(text, i)
    ensures Tokens(text + ("${" + after)) == [Literal(text)] + Reference(after)
  {
    LiteralEnds(text, after);
  }

  lemma TokensOfReference(after: string)
    ensures Tokens("${" + after) == Reference(after)
  {
    var s := "${" + after;
    FirstOpen(s, 0, 0);
    assert s[..0] == "" && s[2..] == after;
    assert Lit("") + Reference(after) == Reference(after);
  }

  /** Scanning a rendered canonical template gives the template back. */
  lemma {:induction false} TokensRender(ts: seq<Token>)
    requires WellFormed(ts)
    ensures Tokens(Render(ts)) == ts
    decreases |ts|, 1
  {
    hide Reference;
    if ts == [] {
    } else if |ts| == 1 && ts[0].Literal? {
      RenderOne(ts[0]);
      assert ts == [ts[0]];
      NoOpen(ts[0].text, 0);
    } else {
      hide Tokens, FindOpen;
      var refs := if ts[0].Literal? then ts[1..] else ts;
      ReferenceRender(refs);
      var after := Render(refs)[2..];
      assert Render(refs) == "${" + after;
      if ts[0].Literal? {
        TokensAfterLiteral(ts[0].text, after);
      } else {
        TokensOfReference(after);
      }
    }
  }

  lemma VarScan(name: string, tail: string)
    requires '}' !in name
    ensures var s := ("${" + name + "}") + tail;
            && OpenAt(s, 0)
            && FindClose(s[2..], 0) == Some(|name|)
            && s[2..][..|name|] == name && s[2..][|name| + 1..] == tail
  {
    var s := ("${" + name + "}") + tail;
    var after := s[2..];
    assert after == name + ("}" + tail);
    FirstClose(after, 0, |name|);
  }

  lemma {:induction false} ReferenceRender(ts: seq<Token>)
    requires WellFormed(ts) && ts != [] && !ts[0].Literal?
    ensures |Render(ts)| >= 2 && OpenAt(Render(ts), 0)
    ensures Reference(Render(ts)[2..]) == ts
    decreases |ts|, 0
  {
    if ts[0].Var? {
      TokensRender(ts[1..]);
      VarScan(ts[0].name, Render(ts[1..]));
      assert ts == [ts[0]] + ts[1..];
    } else {
      assert ts == [ts[0]];
      RenderOne(ts[0]);
      assert Render(ts)[2..] == ts[0].text;
    }
  }

  // ---------------------------------------------------------------- the program's own form

  lemma {:induction false} ValueAppend(lookup: Lookup, a: seq<Token>, b: seq<Token>)
    ensures Value(lookup, a + b) == Value(lookup, a) + Value(lookup, b)
    decreases |a|
  {
    hide ValueOf;
    if a == [] {
      assert a + b == b;
    } else {
      ValueAppend(lookup, a[1..], b);
      assert (a + b)[1..] == a[1..] + b;
      Reassociate(ValueOf(lookup, a[0]), Value(lookup, a[1..]), Value(lookup, b));
    }
  }

  lemma {:induction false} NamesAppend(a: seq<Token>, b: seq<Token>)
    ensures Names(a + b) == Names(a) + Names(b)
    decreases |a|
  {
    if a == [] {
      assert a + b == b;
    } else {
      NamesAppend(a[1..], b);
      assert (a + b)[1..] == a[1..] + b;
      Reassociate(if a[0].Var? then [a[0].name] else [], Names(a[1..]), Names(b));
    }
  }

  lemma ValueOne(lookup: Lookup, t: Token)
    ensures Value(lookup, [t]) == ValueOf(lookup, t)
    ensures Names([t]) == if t.Var? then [t.name] else []
  {
    assert Value(lookup, [t]) == ValueOf(lookup, t) + Value(lookup, []);
    assert Names([t]) == (if t.Var? then [t.name] else []) + Names([]);
  }

  lemma LitValue(lookup: Lookup, s: string)
    ensures Value(lookup, Lit(s)) == s && Names(Lit(s)) == []
  {
    if s != "" {
      ValueOne(lookup, Literal(s));
    }
  }

  /** A text without `${` stands for itself. */
  lemma ScanEnd(lookup: Lookup, s: string)
    requires FindOpen(s, 0).None?
    ensures Value(lookup, Tokens(s)) == s && Names(Tokens(s)) == []
  {
    LitValue(lookup, s);
  }

  /** An unclosed `${` keeps the rest of the text verbatim. */
  lemma ScanUnclosed(lookup: Lookup, s: string)
    requires FindOpen(s, 0).Some? && FindClose(s[FindOpen(s, 0).value + 2..], 0).None?
    ensures Value(lookup, Tokens(s)) == s && Names(Tokens(s)) == []
  {
    hide Value, Names, Lit;
    var start := FindOpen(s, 0).value;
    var after := s[start + 2..];
    LitValue(lookup, s[..start]);
    ValueAppend(lookup, Lit(s[..start]), [Unclosed(after)]);
    NamesAppend(Lit(s[..start]), [Unclosed(after)]);
    ValueOne(lookup, Unclosed(after));
    SplitAtOpen(s, start);
  }

  /** A reference contributes its value and its name, and the scan goes on after its `}`. */
  lemma ScanVar(lookup: Lookup, s: string)
    requires FindOpen(s, 0).Some? && FindClose(s[FindOpen(s, 0).value + 2..], 0).Some?
    ensures var start := FindOpen(s, 0).value;
            var after := s[start + 2..];
            var end := FindClose(after, 0).value;
            var name, rest := after[..end], after[end + 1..];
            && Value(lookup, Tokens(s)) == s[..start] + (lookup(name).GetOr("") + Value(lookup, Tokens(rest)))
            && Names(Tokens(s)) == [name] + Names(Tokens(rest))
  {
    hide Value, Names, Lit;
    var start := FindOpen(s, 0).value;
    var after := s[start + 2..];
    var end := FindClose(after, 0).value;
    var name, rest := after[..end], after[end + 1..];
    LitValue(lookup, s[..start]);
    ValueAppend(lookup, Lit(s[..start]), [Var(name)] + Tokens(rest));
    NamesAppend(Lit(s[..start]), [Var(name)] + Tokens(rest));
    ValueAppend(lookup, [Var(name)], Tokens(rest));
    NamesAppend([Var(name)], Tokens(rest));
    ValueOne(lookup, Var(name));
  }

  /** Expands every reference left to right; `asked` lists the lookups made, in order. */
  method ExpandWith(input: string, lookup: Lookup) returns (result: string, asked: seq<string>)
    ensures result == Value(lookup, Tokens(input))
    ensures asked == Names(Tokens(input))
    ensures FindOpen(input, 0).None? ==> result == input
  {
    hide Tokens, Value, Names;
    if FindOpen(input, 0).None? {
      ScanEnd(lookup, input);
      return input, [];
    }
    result, asked := "", [];
    var remaining := input;
    var open := FindOpen(remaining, 0);
    while open.Some?
      invariant open == FindOpen(remaining, 0)
      invariant result + Value(lookup, Tokens(remaining)) == Value(lookup, Tokens(input))
      invariant asked + Names(Tokens(remaining)) == Names(Tokens(input))
      decreases |remaining|
    {
      var start := open.value;
      var after := remaining[start + 2..];
      match FindClose(after, 0) {
        case Some(end) =>
          ScanVar(lookup, remaining);
          var name := after[..end];
          ghost var rest := Value(lookup, Tokens(after[end + 1..]));
          var value := lookup(name);
          Reassociate(result, remaining[..start], value.GetOr("") + rest);
          Reassociate(result + remaining[..start], value.GetOr(""), rest);
          Reassociate(asked, [name], Names(Tokens(after[end + 1..])));
          result := result + remaining[..start];
          asked := asked + [name];
          if value.Some? {
            result := result + value.value;
          } else {
            assert result + "" == result;
          }
          remaining := after[end + 1..];
        case None =>
          ScanUnclosed(lookup, remaining);
          Reassociate(result, remaining[..start], remaining[start..]);
          assert remaining == remaining[..start] + remaining[start..];
          result := result + remaining[..start];
          result := result + remaining[start..];
          remaining := "";
          ScanEnd(lookup, "");
      }
      open := FindOpen(remaining, 0);
    }
    ScanEnd(lookup, remaining);
    result := result + remaining;
  }

  /** Expanding a rendered template gives its literals and its looked-up values, joined. */
  lemma ExpansionOfTemplate(lookup: Lookup, ts: seq<Token>)
    requires WellFormed(ts)
    ensures Value(lookup, Tokens(Render(ts))) == Value(lookup, ts)
    ensures Names(Tokens(Render(ts))) == Names(ts)
  {
    TokensRender(ts);
  }

  // ---------------------------------------------------------------- order

  ghost predicate Increasing(ix: seq<nat>) {
    forall k, m | 0 <= k < m < |ix| :: ix[k] < ix[m]
  }

  /** `ix` lists the positions of the references among the tokens, in order, and `names` what they
      refer to. */
  ghost predicate ListsNames(ts: seq<Token>, ix: seq<nat>, names: seq<string>) {
    && Increasing(ix) && |names| == |ix|
    && (forall i: nat :: i in ix <==> i < |ts| && ts[i].Var?)
    && (forall k | 0 <= k < |ix| :: ix[k] < |ts| && ts[ix[k]] == Var(names[k]))
  }

  lemma NamesOneMore(front: seq<Token>, ix: seq<nat>, names: seq<string>, t: Token)
    requires ListsNames(front, ix, names)
    ensures if t.Var? then ListsNames(front + [t], ix + [|front|], names + [t.name])
            else ListsNames(front + [t], ix, names)
  {
    var ts, n := front + [t], |front|;
    if t.Var? {
      var ix' := ix + [n];
      forall i: nat ensures i in ix' <==> i < |ts| && ts[i].Var? {
        assert i in ix' <==> i in ix || i == n;
      }
    }
  }

  lemma {:induction false} NamesInOrder(ts: seq<Token>) returns (ix: seq<nat>)
    ensures ListsNames(ts, ix, Names(ts))
    decreases |ts|
  {
    if ts == [] {
      ix := [];
    } else {
      hide ListsNames;
      var n := |ts| - 1;
      var front, last := ts[..n], ts[n];
      ix := NamesInOrder(front);
      NamesAppend(front, [last]);
      ValueOne(_ => None, last);
      assert front + [last] == ts;
      NamesOneMore(front, ix, Names(front), last);
      if last.Var? {
        ix := ix + [n];
      } else {
        assert Names(front) + [] == Names(front);
      }
    }
  }

  /** What one token becomes: a literal or an unclosed tail itself, a reference its value, and
      nothing if it has none. */
  ghost predicate Becomes(lookup: Lookup, t: Token, piece: string) {
    match t
    case Literal(text) => piece == text
    case Var(name) => if lookup(name).Some? then piece == lookup(name).value else piece == ""
    case Unclosed(text) => piece == "${" + text
  }

  /** Between two cuts lies what the token there becomes. */
  ghost predicate PieceAt(lookup: Lookup, ts: seq<Token>, cuts: seq<nat>, expansion: string, i: nat)
    requires i < |ts| && |cuts| == |ts| + 1
  {
    cuts[i] <= cuts[i + 1] <= |expansion| && Becomes(lookup, ts[i], expansion[cuts[i]..cuts[i + 1]])
  }

  /** `cuts` divides the expansion into one piece for each token, in order. */
  ghost predicate Divides(lookup: Lookup, ts: seq<Token>, cuts: seq<nat>, expansion: string) {
    && |cuts| == |ts| + 1 && cuts[0] == 0 && cuts[|ts|] == |expansion|
    && forall i: nat | i < |ts| :: PieceAt(lookup, ts, cuts, expansion, i)
  }

  lemma DividesMore(lookup: Lookup, front: seq<Token>, cuts: seq<nat>, before: string, t: Token)
    requires Divides(lookup, front, cuts, before)
    ensures var whole := before + ValueOf(lookup, t); Divides(lookup, front + [t], cuts + [|whole|], whole)
  {
    var piece, n := ValueOf(lookup, t), |front|;
    var whole, ts := before + piece, front + [t];
    var cuts' := cuts + [|whole|];
    assert whole[|before|..|whole|] == piece;
    forall i: nat | i < |ts| ensures PieceAt(lookup, ts, cuts', whole, i) {
      if i < n {
        assert PieceAt(lookup, front, cuts, before, i);
        assert whole[cuts[i]..cuts[i + 1]] == before[cuts[i]..cuts[i + 1]];
      }
    }
  }

  /** The expansion of a text is the pieces of its tokens, each in its place. */
  lemma {:induction false} ExpansionInOrder(lookup: Lookup, ts: seq<Token>) returns (cuts: seq<nat>)
    ensures Divides(lookup, ts, cuts, Value(lookup, ts))
    decreases |ts|
  {
    if ts == [] {
      cuts := [0];
    } else {
      hide Divides, ValueOf;
      var n := |ts| - 1;
      var front, last := ts[..n], ts[n];
      cuts := ExpansionInOrder(lookup, front);
      ValueAppend(lookup, front, [last]);
      ValueOne(lookup, last);
      assert front + [last] == ts;
      DividesMore(lookup, front, cuts, Value(lookup, front), last);
      cuts := cuts + [|Value(lookup, ts)|];
    }
  }

  /** `ix` lists the positions of the unset names, in order, and `missing` the names there. */
  ghost predicate ListsUnset(lookup: Lookup, names: seq<string>, ix: seq<nat>, missing: seq<string>) {
    && Increasing(ix) && |missing| == |ix|
    && (forall i: nat :: i in ix <==> i < |names| && lookup(names[i]).None?)
    && (forall k | 0 <= k < |ix| :: ix[k] < |names| && missing[k] == names[ix[k]])
  }

  lemma ListsOneMore(lookup: Lookup, front: seq<string>, ix: seq<nat>, missing: seq<string>, name: string)
    requires ListsUnset(lookup, front, ix, missing)
    ensures if lookup(name).None? then ListsUnset(lookup, front + [name], ix + [|front|], missing + [name])
            else ListsUnset(lookup, front + [name], ix, missing)
  {
    var names, n := front + [name], |front|;
    if lookup(name).None? {
      var ix' := ix + [n];
      forall i: nat ensures i in ix' <==> i < |names| && lookup(names[i]).None? {
        assert i in ix' <==> i in ix || i == n;
      }
    }
  }

  lemma {:induction false} UnsetInOrder(lookup: Lookup, names: seq<string>) returns (ix: seq<nat>)
    ensures ListsUnset(lookup, names, ix, Unset(lookup, names))
    decreases |names|
  {
    if names == [] {
      ix := [];
    } else {
      hide ListsUnset;
      var n := |names| - 1;
      ix := UnsetInOrder(lookup, names[..n]);
      ListsOneMore(lookup, names[..n], ix, Unset(lookup, names[..n]), names[n]);
      assert names[..n] + [names[n]] == names;
      if lookup(names[n]).None? {
        ix := ix + [n];
      } else {
        assert Unset(lookup, names[..n]) + [] == Unset(lookup, names[..n]);
      }
    }
  }

  function Unset(lookup: Lookup, names: seq<string>): seq<string> {
    if names == [] then []
    else Unset(lookup, names[..|names| - 1]) + if lookup(names[|names| - 1]).None? then [names[|names| - 1]] else []
  }

  lemma {:induction false} UnsetEmptyIff(lookup: Lookup, names: seq<string>)
    ensures Unset(lookup, names) == [] <==> forall name | name in names :: lookup(name).Some?
    ensures forall name :: name in Unset(lookup, names) <==> name in names && lookup(name).None?
  {
    if names != [] {
      UnsetEmptyIff(lookup, names[..|names| - 1]);
      assert names == names[..|names| - 1] + [names[|names| - 1]];
    }
  }

  /** The lookups that failed, collected as they happen. */
  method CollectUnset(env: Lookup, asked: seq<string>) returns (missing: seq<string>)
    ensures missing == Unset(env, asked)
  {
    missing := [];
    for i := 0 to |asked|
      invariant missing == Unset(env, asked[..i])
    {
      var front := asked[..i + 1];
      assert front[..i] == asked[..i] && front[i] == asked[i];
      if env(asked[i]).None? {
        missing := missing + [asked[i]];
      } else {
        assert missing + [] == missing;
      }
    }
    assert asked[..|asked|] == asked;
  }

  /** The checked form: succeeds exactly when every referenced name is set, and otherwise names
      exactly the unset ones in the order they are met. */
  method ExpandEnvChecked(input: string, env: Lookup) returns (r: Result<string, seq<string>>)
    ensures r.Ok? <==> forall name | name in Names(Tokens(input)) :: env(name).Some?
    ensures r.Ok? ==> r.value == Value(env, Tokens(input))
    ensures r.Err? ==> exists ix: seq<nat> :: ListsUnset(env, Names(Tokens(input)), ix, r.error)
  {
    hide Tokens, Value, Names, Unset, ListsUnset;
    var expanded, asked := ExpandWith(input, env);
    var missing := CollectUnset(env, asked);
    UnsetEmptyIff(env, asked);
    ghost var ix := UnsetInOrder(env, asked);
    if missing == [] {
      r := Ok(expanded);
    } else {
      r := Err(missing);
    }
  }
}
