/**
 * The cookie oven: an insertion-ordered jar of `SetCookie` values keyed by
 * name, with default options merged into every cookie added, and the two
 * ways of writing the jar into the `Set-Cookie` header lines of a response:
 * `setTo` replaces the lines, `appendTo` merges the jar into them.
 *
 * A response is modelled as the sequence of its `Set-Cookie` lines; the
 * clock and `date(DATE_COOKIE, ...)` are parameters `now` and `fmt`.
 */
module Ovens {
  import opened Wrappers
  import opened OrderedMaps
  import opened PhpValues
  import opened UrlEncoding
  import opened SetCookies

  /** The jar: cookie name (or the offset it was stored under) to cookie. */
  type Bag = OrderedMap<string, SetCookie>

  /**
   * A key of the array `parseLines` builds: the text before the first `=`
   * of a line, or the next integer index for a line without `=`.
   */
  datatype LineKey = Named(name: string) | Positional(index: nat)

  type Lines = OrderedMap<LineKey, string>

  /** How many of `lines` hold no `=`: the next integer index `$parsed[]` uses. */
  function CountUnkeyed(lines: seq<string>): (n: nat)
    ensures n <= |lines|
    decreases |lines|
  {
    if |lines| == 0 then 0
    else CountUnkeyed(lines[..|lines| - 1]) + (if '=' in lines[|lines| - 1] then 0 else 1)
  }

  /** The key `parseLines` gives `line` when `unkeyed` lines without `=` came before it. */
  function LineKeyOf(line: string, unkeyed: nat): LineKey {
    match ExplodeHead(line, '=')
    case Some(name) => Named(name)
    case None => Positional(unkeyed)
  }

  /** The key of the `i`-th line. */
  function KeyAt(lines: seq<string>, i: nat): LineKey
    requires i < |lines|
  {
    LineKeyOf(lines[i], CountUnkeyed(lines[..i]))
  }

  /** `parseLines($cookie_lines)`, as the fold of its loop over the lines. */
  function ParsedLines(lines: seq<string>): Lines
    decreases |lines|
  {
    if |lines| == 0 then []
    else
      var n := |lines| - 1;
      Put(ParsedLines(lines[..n]), LineKeyOf(lines[n], CountUnkeyed(lines[..n])), lines[n])
  }

  /** The header name a key stands for: the named text, or none for a positional slot. */
  function KeyHead(k: LineKey): Option<string> {
    match k
    case Named(name) => Some(name)
    case Positional(_) => None
  }

  /** Every slot's line starts with the head its key names, and a positional line holds no `=`. */
  predicate HeadsMatchKeys(m: seq<(LineKey, string)>) {
    forall i :: 0 <= i < |m| ==> ExplodeHead(m[i].1, '=') == KeyHead(m[i].0)
  }

  /** Positional slots hold indexes below `n`. */
  predicate PositionalBelow(m: seq<(LineKey, string)>, n: nat) {
    forall i :: 0 <= i < |m| && m[i].0.Positional? ==> m[i].0.index < n
  }

  /** The key of a line is named exactly when the line holds `=`, and then by the text before it. */
  lemma KeyOfLine(lines: seq<string>, i: nat)
    requires i < |lines|
    ensures KeyAt(lines, i).Named? <==> '=' in lines[i]
    ensures KeyAt(lines, i).Named? ==> Some(KeyAt(lines, i).name) == ExplodeHead(lines[i], '=')
    ensures KeyHead(KeyAt(lines, i)) == ExplodeHead(lines[i], '=')
  {
  }

  /** The invariants of the parsing loop: slot heads match keys, positional indexes are the ones used so far. */
  lemma {:induction false} ParsedInvariant(lines: seq<string>)
    ensures HeadsMatchKeys(ParsedLines(lines))
    ensures PositionalBelow(ParsedLines(lines), CountUnkeyed(lines))
    decreases |lines|
  {
    if |lines| > 0 {
      var n := |lines| - 1;
      var p := ParsedLines(lines[..n]);
      ParsedInvariant(lines[..n]);
      var k := LineKeyOf(lines[n], CountUnkeyed(lines[..n]));
      var r := Put(p, k, lines[n]);
      assert r == ParsedLines(lines);
      forall i | 0 <= i < |r| ensures ExplodeHead(r[i].1, '=') == KeyHead(r[i].0) && (r[i].0.Positional? ==> r[i].0.index < CountUnkeyed(lines)) {
        if i < |p| && r[i] == p[i] {
        } else {
          assert r[i] == (k, lines[n]);
        }
      }
    }
  }

  /** A line without `=` gets a new positional key: it is appended, never overwrites. */
  lemma PositionalIsNew(lines: seq<string>)
    ensures Positional(CountUnkeyed(lines)) !in Keys(ParsedLines(lines))
  {
    ParsedInvariant(lines);
    var p := ParsedLines(lines);
    forall i | 0 <= i < |p| ensures Keys(p)[i] != Positional(CountUnkeyed(lines)) {
    }
  }

  /**
   * The keys of the parsed array are exactly the keys of the lines: a line
   * with `=` under its text before the first `=`, the unkeyed lines under
   * 0, 1, 2, ... in their order.
   */
  lemma {:induction false} ParsedKeys(lines: seq<string>, k: LineKey)
    ensures k in Keys(ParsedLines(lines)) <==> exists i :: 0 <= i < |lines| && KeyAt(lines, i) == k
    decreases |lines|
  {
    if |lines| > 0 {
      ParsedKeys(lines[..|lines| - 1], k);
      ParsedKeysStep(lines, lines[..|lines| - 1], k);
    }
  }

  /** The inductive step of the above, for one more line. */
  lemma ParsedKeysStep(lines: seq<string>, init: seq<string>, k: LineKey)
    requires |lines| > 0 && init == lines[..|lines| - 1]
    requires k in Keys(ParsedLines(init)) <==> exists i :: 0 <= i < |init| && KeyAt(init, i) == k
    ensures k in Keys(ParsedLines(lines)) <==> exists i :: 0 <= i < |lines| && KeyAt(lines, i) == k
  {
    var n := |lines| - 1;
    ParsedKeysSnoc(lines, init);
    KeysAgree(lines, init);
    if k in Keys(ParsedLines(lines)) {
      if k == KeyAt(lines, n) {
        assert 0 <= n < |lines| && KeyAt(lines, n) == k;
      } else {
        var i :| 0 <= i < |init| && KeyAt(init, i) == k;
        assert 0 <= i < |lines| && KeyAt(lines, i) == k;
      }
    } else {
      assert k != KeyAt(lines, n);
      forall i | 0 <= i < |lines| ensures KeyAt(lines, i) != k {
        if i < n {
          assert KeyAt(init, i) == KeyAt(lines, i);
        } else {
          assert i == n;
        }
      }
    }
  }

  /** One more line adds its key to the parsed keys, unless it is already there. */
  lemma ParsedKeysSnoc(lines: seq<string>, init: seq<string>)
    requires |lines| > 0 && init == lines[..|lines| - 1]
    ensures forall k :: k in Keys(ParsedLines(lines)) <==> k in Keys(ParsedLines(init)) || k == KeyAt(lines, |lines| - 1)
  {
    var n := |lines| - 1;
    var last := LineKeyOf(lines[n], CountUnkeyed(init));
    assert ParsedLines(lines) == Put(ParsedLines(init), last, lines[n]);
    PutKeys(ParsedLines(init), last, lines[n]);
  }

  /** One more line keeps the parsed keys as a prefix. */
  lemma ParsedKeysExtend(lines: seq<string>, init: seq<string>)
    requires |lines| > 0 && init == lines[..|lines| - 1]
    ensures Keys(ParsedLines(init)) <= Keys(ParsedLines(lines))
  {
    var n := |lines| - 1;
    var last := LineKeyOf(lines[n], CountUnkeyed(init));
    assert ParsedLines(lines) == Put(ParsedLines(init), last, lines[n]);
    PutKeys(ParsedLines(init), last, lines[n]);
  }

  /** The lines before the last keep their keys. */
  lemma KeysAgree(lines: seq<string>, init: seq<string>)
    requires |lines| > 0 && init == lines[..|lines| - 1]
    ensures forall i :: 0 <= i < |init| ==> KeyAt(init, i) == KeyAt(lines, i)
  {
    forall i | 0 <= i < |init| ensures KeyAt(init, i) == KeyAt(lines, i) {
      assert init[..i] == lines[..i];
    }
  }

  /** The key of a line does not depend on the lines after it. */
  lemma KeyAtPrefix(lines: seq<string>, k: nat, j: nat)
    requires j < k <= |lines|
    ensures KeyAt(lines[..k], j) == KeyAt(lines, j)
  {
    assert lines[..k][..j] == lines[..j];
  }

  /** One more line adds one to the count exactly when it holds no `=`. */
  lemma CountStep(lines: seq<string>, i: nat)
    requires i < |lines|
    ensures CountUnkeyed(lines[..i + 1]) == CountUnkeyed(lines[..i]) + (if '=' in lines[i] then 0 else 1)
  {
    assert lines[..i + 1][..i] == lines[..i];
  }

  /** No line after the `i`-th has its key. */
  predicate LastWithKey(lines: seq<string>, i: nat)
    requires i < |lines|
  {
    forall j :: i < j < |lines| ==> KeyAt(lines, j) != KeyAt(lines, i)
  }

  /**
   * The line kept under a key is the last line with that key: a later
   * duplicate overwrites an earlier one.
   */
  lemma {:induction false} ParsedValue(lines: seq<string>, i: nat)
    requires i < |lines| && LastWithKey(lines, i)
    ensures Get(ParsedLines(lines), KeyAt(lines, i)) == Some(lines[i])
    decreases |lines|
  {
    var n := |lines| - 1;
    var init := lines[..n];
    var k := KeyAt(lines, i);
    assert KeyAt(lines, n) == LineKeyOf(lines[n], CountUnkeyed(init));
    PutGet(ParsedLines(init), LineKeyOf(lines[n], CountUnkeyed(init)), lines[n], k);
    if i < n {
      KeyAtPrefix(lines, n, i);
      forall j | i < j < |init| ensures KeyAt(init, j) != KeyAt(init, i) {
        KeyAtPrefix(lines, n, j);
      }
      ParsedValue(init, i);
    }
  }

  /** Lines without `=` are never overwritten: each stays under its index among the unkeyed lines. */
  lemma UnkeyedKept(lines: seq<string>, i: nat)
    requires i < |lines| && '=' !in lines[i]
    ensures Get(ParsedLines(lines), Positional(CountUnkeyed(lines[..i]))) == Some(lines[i])
  {
    assert KeyAt(lines, i) == Positional(CountUnkeyed(lines[..i]));
    CountStep(lines, i);
    forall j | i < j < |lines| ensures KeyAt(lines, j) != KeyAt(lines, i) {
      CountGrows(lines, i + 1, j);
    }
    ParsedValue(lines, i);
  }

  /** Counting over a longer prefix never gives less. */
  lemma {:induction false} CountGrows(lines: seq<string>, a: nat, b: nat)
    requires a <= b <= |lines|
    ensures CountUnkeyed(lines[..a]) <= CountUnkeyed(lines[..b])
    decreases b - a
  {
    if a < b {
      CountGrows(lines, a, b - 1);
      CountStep(lines, b - 1);
    }
  }

  /**
   * A slot, once made, keeps its position: the keys parsed from a prefix of
   * the lines are a prefix of the keys parsed from all of them.
   */
  lemma {:induction false} ParsedKeysGrow(lines: seq<string>, a: nat)
    requires a <= |lines|
    ensures Keys(ParsedLines(lines[..a])) <= Keys(ParsedLines(lines))
    decreases |lines| - a
  {
    if a < |lines| {
      var init := lines[..|lines| - 1];
      assert init[..a] == lines[..a];
      ParsedKeysGrow(init, a);
      ParsedKeysExtend(lines, init);
    } else {
      assert lines[..a] == lines;
    }
  }

  /** `['Name=Value']` parses to `['Name' => 'Name=Value']`. */
  lemma ParseOneNamed(name: string, value: string)
    requires '=' !in name
    ensures ParsedLines([name + "=" + value]) == [(Named(name), name + "=" + value)]
  {
    ExplodeHeadOfJoin(name, '=', value);
    ParseOneLine(name + "=" + value);
  }

  /** `['Name=Value1', 'Name=Value2']` parses to `['Name' => 'Name=Value2']`. */
  lemma ParseDuplicateNamed(name: string, v1: string, v2: string)
    requires '=' !in name
    ensures ParsedLines([name + "=" + v1, name + "=" + v2]) == [(Named(name), name + "=" + v2)]
  {
    var l1, l2 := name + "=" + v1, name + "=" + v2;
    var lines := [l1, l2];
    ParseOneNamed(name, v1);
    ExplodeHeadOfJoin(name, '=', v2);
    assert lines[..1] == [l1];
    var p: Lines := [(Named(name), l1)];
    assert Keys(p) == [Named(name)];
    assert IndexOf(p, Named(name)) == 0;
    assert LineKeyOf(l2, CountUnkeyed([l1])) == Named(name);
    assert ParsedLines(lines) == Put(p, Named(name), l2);
  }

  /** `['Value1', 'Value2']` parses to the list `['Value1', 'Value2']`. */
  lemma ParseUnkeyed(a: string, b: string)
    requires '=' !in a && '=' !in b
    ensures ParsedLines([a, b]) == [(Positional(0), a), (Positional(1), b)]
  {
    var lines := [a, b];
    assert lines[..1] == [a];
    assert [a][..0] == [];
    assert ExplodeHead(a, '=') == None && ExplodeHead(b, '=') == None;
    assert CountUnkeyed([a]) == 1;
    var p: Lines := [(Positional(0), a)];
    assert ParsedLines([a]) == p;
    assert Keys(p) == [Positional(0)];
    assert ParsedLines(lines) == Put(p, Positional(1), b);
  }

  /** A compiler of one cookie's header line, or the exception it throws. */
  type Compiler = SetCookie -> Result<string, Error>

  /** `$cookie->compileHeaderLine($now)` as a compiler. */
  function LineCompiler(now: int, fmt: int -> string): Compiler {
    c => CompileHeaderLine(c, now, fmt)
  }

  /** Every line the compiler writes is found again under its cookie's encoded name. */
  ghost predicate KeysByEncodedName(compile: Compiler) {
    forall c :: compile(c).Success? ==> ExplodeHead(compile(c).value, '=') == Some(UrlEncode(c.name))
  }

  /** `compileHeaderLine` writes lines that start with the encoded name and `=`. */
  lemma LineCompilerKeys(now: int, fmt: int -> string)
    ensures KeysByEncodedName(LineCompiler(now, fmt))
  {
    forall c | LineCompiler(now, fmt)(c).Success?
      ensures ExplodeHead(LineCompiler(now, fmt)(c).value, '=') == Some(UrlEncode(c.name))
    {
      assert LineCompiler(now, fmt)(c) == CompileHeaderLine(c, now, fmt);
    }
  }

  /** Entry `i` is the first of the bag whose line fails to compile. */
  predicate FirstFailureAt(bag: seq<(string, SetCookie)>, i: int, compile: Compiler) {
    && 0 <= i < |bag|
    && compile(bag[i].1).Failure?
    && forall j :: 0 <= j < i ==> compile(bag[j].1).Success?
  }

  /**
   * The compiled lines of the bag's cookies, in bag order, or the exception
   * of the first cookie that fails to compile.
   */
  function CompiledLines(bag: seq<(string, SetCookie)>, compile: Compiler): (r: Result<seq<string>, Error>)
    ensures r.Success? <==> forall i :: 0 <= i < |bag| ==> compile(bag[i].1).Success?
    ensures r.Success? ==> |r.value| == |bag|
    ensures r.Success? ==> forall i :: 0 <= i < |bag| ==> Success(r.value[i]) == compile(bag[i].1)
    ensures r.Failure? ==> exists i :: FirstFailureAt(bag, i, compile) && r.error == compile(bag[i].1).error
    decreases |bag|
  {
    if |bag| == 0 then Success([])
    else
      var n := |bag| - 1;
      var init := bag[..n];
      assert forall i :: 0 <= i < n ==> init[i] == bag[i];
      match CompiledLines(init, compile)
      case Failure(e) =>
        var i :| FirstFailureAt(init, i, compile) && e == compile(init[i].1).error;
        assert FirstFailureAt(bag, i, compile);
        Failure(e)
      case Success(ls) =>
        match compile(bag[n].1)
        case Failure(e) =>
          assert FirstFailureAt(bag, n, compile);
          Failure(e)
        case Success(line) => Success(ls + [line])
  }

  /**
   * The loop `foreach ($this->bag as $name => $cookie) { $cookie_lines[$name]
   * = $cookie->compileHeaderLine($now); }` started from `lines`.
   */
  function Baked(lines: Lines, bag: seq<(string, SetCookie)>, compile: Compiler): Result<Lines, Error>
    decreases |bag|
  {
    if |bag| == 0 then Success(lines)
    else
      var n := |bag| - 1;
      var init :- Baked(lines, bag[..n], compile);
      var line :- compile(bag[n].1);
      Success(Put(init, Named(bag[n].0), line))
  }

  /** The bag's compiled lines, each under the raw name it is stored under in the bag. */
  function Keyed(bag: seq<(string, SetCookie)>, lines: seq<string>): (kvs: seq<(LineKey, string)>)
    requires |lines| == |bag|
    ensures |kvs| == |bag|
    ensures forall i :: 0 <= i < |bag| ==> kvs[i] == (Named(bag[i].0), lines[i])
  {
    seq(|bag|, i requires 0 <= i < |bag| => (Named(bag[i].0), lines[i]))
  }

  /** Distinct bag names give distinct keys. */
  lemma KeyedDistinct(bag: Bag, lines: seq<string>)
    requires |lines| == |bag|
    ensures DistinctKeys(Keyed(bag, lines))
  {
  }

  /**
   * The loop fails exactly when a cookie fails to compile, with the first
   * such exception; otherwise it puts the compiled lines, in bag order,
   * under the bag names.
   */
  lemma {:induction false} BakedIsPutAll(lines: Lines, bag: seq<(string, SetCookie)>, compile: Compiler)
    ensures Baked(lines, bag, compile).Success? <==> CompiledLines(bag, compile).Success?
    ensures Baked(lines, bag, compile).Failure? ==> Baked(lines, bag, compile).error == CompiledLines(bag, compile).error
    ensures Baked(lines, bag, compile).Success? ==>
      Baked(lines, bag, compile).value == PutAll(lines, Keyed(bag, CompiledLines(bag, compile).value))
    decreases |bag|
  {
    if |bag| > 0 {
      var n := |bag| - 1;
      BakedIsPutAll(lines, bag[..n], compile);
      var c := CompiledLines(bag, compile);
      if c.Success? {
        var kvs := Keyed(bag, c.value);
        assert kvs[..n] == Keyed(bag[..n], CompiledLines(bag[..n], compile).value);
      }
    }
  }

  /** A failure in a prefix of the bag is the failure of the whole loop. */
  lemma {:induction false} BakedPrefixFailure(lines: Lines, bag: seq<(string, SetCookie)>, k: nat, compile: Compiler)
    requires k <= |bag|
    requires Baked(lines, bag[..k], compile).Failure?
    ensures Baked(lines, bag, compile) == Baked(lines, bag[..k], compile)
    decreases |bag| - k
  {
    if k < |bag| {
      var n := |bag| - 1;
      assert bag[..n][..k] == bag[..k];
      BakedPrefixFailure(lines, bag[..n], k, compile);
    } else {
      assert bag[..k] == bag;
    }
  }

  /** One more turn of the loop. */
  lemma BakedStep(lines: Lines, bag: seq<(string, SetCookie)>, i: nat, compile: Compiler)
    requires i < |bag|
    ensures Baked(lines, bag[..i + 1], compile) ==
      match Baked(lines, bag[..i], compile)
      case Failure(e) => Failure(e)
      case Success(m) =>
        match compile(bag[i].1)
        case Failure(e) => Failure(e)
        case Success(line) => Success(Put(m, Named(bag[i].0), line))
  {
    assert bag[..i + 1][..i] == bag[..i];
  }

  /** The lines `setTo` writes: the jar's compiled lines under their names. */
  function SetLines(bag: Bag, compile: Compiler): Result<seq<string>, Error> {
    var m :- Baked([], bag, compile);
    Success(Values(m))
  }

  /**
   * `setTo` ignores the existing lines and writes exactly one line per jar
   * entry, each the compiled line of that entry's cookie, in jar order; it
   * fails with the first cookie that fails to compile.
   */
  lemma SetLinesAreCompiled(bag: Bag, compile: Compiler)
    ensures SetLines(bag, compile) == CompiledLines(bag, compile)
  {
    BakedIsPutAll([], bag, compile);
    var c := CompiledLines(bag, compile);
    if c.Success? {
      var kvs := Keyed(bag, c.value);
      KeyedDistinct(bag, c.value);
      var empty: Lines := [];
      PutAllShape(empty, kvs);
      assert Keys(empty) == [];
      MissingNone(kvs);
      assert Values(PutAll(empty, kvs)) == c.value;
    }
  }

  /** With nothing to skip, `Missing` keeps everything. */
  lemma {:induction false} MissingNone<K, V>(s: seq<(K, V)>)
    ensures Missing(s, []) == s
    decreases |s|
  {
    if |s| > 0 {
      MissingNone(s[1..]);
    }
  }

  /** `appendTo`: an empty jar returns the lines unchanged; otherwise the jar is baked into the parsed lines. */
  function AppendLines(existing: seq<string>, bag: Bag, compile: Compiler): Result<seq<string>, Error> {
    if |bag| == 0 then Success(existing)
    else
      var m :- Baked(ParsedLines(existing), bag, compile);
      Success(Values(m))
  }

  /**
   * The shape of a successful `appendTo` with a non-empty jar: the parsed
   * existing lines keep their slots, a slot whose key is the name of a jar
   * entry taking that entry's compiled line, and then come the compiled
   * lines of the jar entries whose names matched no slot, in jar order.
   * Existing lines of cookies no longer in the jar survive.
   */
  lemma AppendShape(existing: seq<string>, bag: Bag, compile: Compiler)
    requires |bag| > 0
    ensures AppendLines(existing, bag, compile).Success? <==> CompiledLines(bag, compile).Success?
    ensures AppendLines(existing, bag, compile).Success? ==>
      var p := ParsedLines(existing);
      var kvs := Keyed(bag, CompiledLines(bag, compile).value);
      var r := AppendLines(existing, bag, compile).value;
      && |r| == |p| + |Missing(kvs, Keys(p))|
      && (forall i :: 0 <= i < |p| ==> r[i] == Get(kvs, p[i].0).GetOr(p[i].1))
      && r[|p|..] == Values(Missing(kvs, Keys(p)))
  {
    var p := ParsedLines(existing);
    BakedIsPutAll(p, bag, compile);
    var c := CompiledLines(bag, compile);
    if c.Success? {
      var kvs := Keyed(bag, c.value);
      KeyedDistinct(bag, c.value);
      PutAllShape(p, kvs);
    }
  }

  /**
   * As written, a jar cookie whose name `urlencode` changes does not find
   * the existing line it compiled before: that line is keyed by the encoded
   * name, the jar line by the raw one, so both are written.
   */
  lemma AppendDuplicatesEncodedName(prior: string, c: SetCookie, compile: Compiler)
    requires KeysByEncodedName(compile)
    requires UrlEncode(c.name) != c.name
    requires ExplodeHead(prior, '=') == Some(UrlEncode(c.name))
    requires compile(c).Success?
    ensures AppendLines([prior], [(c.name, c)], compile) == Success([prior, compile(c).value])
    ensures ExplodeHead(prior, '=') == ExplodeHead(compile(c).value, '=')
  {
    ParseOneLine(prior);
    var p: Lines := [(Named(UrlEncode(c.name)), prior)];
    BakeOne(p, c.name, c, compile);
    assert Keys(p) == [Named(UrlEncode(c.name))];
    var r: Lines := p + [(Named(c.name), compile(c).value)];
    assert Put(p, Named(c.name), compile(c).value) == r;
    assert Values(r) == [prior, compile(c).value];
  }

  /** A single line holding `=` parses to that line under its head. */
  lemma ParseOneLine(line: string)
    requires '=' in line
    ensures ParsedLines([line]) == [(Named(ExplodeHead(line, '=').value), line)]
  {
    assert [line][..0] == [];
  }

  /** Baking a one-entry bag puts its line under its name. */
  lemma BakeOne(p: Lines, name: string, c: SetCookie, compile: Compiler)
    requires compile(c).Success?
    ensures Baked(p, [(name, c)], compile) == Success(Put(p, Named(name), compile(c).value))
  {
    var bag: seq<(string, SetCookie)> := [(name, c)];
    assert bag[..0] == [];
  }

  /** A cookie named `a b` (two plain words and a space) with a plain value and no options compiles to `a+b=value`. */
  lemma SpacedNameLine(c: SetCookie, a: string, b: string, now: int, fmt: int -> string)
    requires Plain(a) && Plain(b) && Plain(c.value)
    requires c.name == a + " " + b && c.options == []
    ensures LineCompiler(now, fmt)(c) == Success(a + "+" + b + "=" + c.value)
    ensures UrlEncode(c.name) == a + "+" + b
  {
    SpacedPlain(a, b);
    PlainUnreserved(c.value);
    UrlEncodeKeepsUnreserved(c.value);
    CompileWithoutOptions(c, now, fmt);
  }

  /** Two plain words joined by a space encode to the words joined by `+`, which holds no `=`. */
  lemma SpacedNameHead(name: string, a: string, b: string, w: string)
    requires Plain(a) && Plain(b)
    requires name == a + " " + b
    ensures UrlEncode(name) == a + "+" + b && UrlEncode(name) != name
    ensures ExplodeHead(a + "+" + b + "=" + w, '=') == Some(UrlEncode(name))
  {
    SpacedPlain(a, b);
    var head := a + "+" + b;
    assert head[|a|] == '+' && name[|a|] == ' ';
    PlainUnreserved(a);
    PlainUnreserved(b);
    assert '=' !in head by {
      forall i | 0 <= i < |head| ensures head[i] != '=' {
        if i < |a| { assert head[i] == a[i]; }
        else if i > |a| { assert head[i] == b[i - |a| - 1]; }
      }
    }
    ExplodeHeadOfJoin(head, '=', w);
  }

  /**
   * A cookie named `a b` against the line `a+b=0` it produced before: both
   * lines are written, for any plain words `a`, `b` and plain value.
   */
  lemma SpacedNameDuplicated(c: SetCookie, a: string, b: string, w: string, now: int, fmt: int -> string)
    requires Plain(a) && Plain(b) && Plain(c.value)
    requires c.name == a + " " + b && c.options == []
    ensures AppendLines([a + "+" + b + "=" + w], [(c.name, c)], LineCompiler(now, fmt))
      == Success([a + "+" + b + "=" + w, a + "+" + b + "=" + c.value])
  {
    SpacedNameHead(c.name, a, b, w);
    LineCompilerKeys(now, fmt);
    SpacedNameLine(c, a, b, now, fmt);
    AppendDuplicatesEncodedName(a + "+" + b + "=" + w, c, LineCompiler(now, fmt));
  }

  /** The concrete case: the cookie `a b=1` next to the line `a+b=0` leaves both lines. */
  lemma SpacedNameExample(c: SetCookie, prior: string, line: string, now: int, fmt: int -> string)
    requires c.name == "a b" && c.value == "1" && c.options == []
    requires prior == "a+b=0" && line == "a+b=1"
    ensures AppendLines([prior], [(c.name, c)], LineCompiler(now, fmt)) == Success([prior, line])
  {
    assert Plain("a") && Plain("b") && Plain("1");
    assert c.name == "a" + " " + "b";
    assert prior == "a" + "+" + "b" + "=" + "0";
    assert line == "a" + "+" + "b" + "=" + c.value;
    SpacedNameDuplicated(c, "a", "b", "0", now, fmt);
  }

  /** The compiled lines, each under the key `parseLines` would give it: its encoded name. */
  function KeyedByHead(bag: seq<(string, SetCookie)>, lines: seq<string>): (kvs: seq<(LineKey, string)>)
    requires |lines| == |bag|
    ensures |kvs| == |bag|
    ensures forall i :: 0 <= i < |bag| ==> kvs[i] == (Named(UrlEncode(bag[i].1.name)), lines[i])
  {
    seq(|bag|, i requires 0 <= i < |bag| => (Named(UrlEncode(bag[i].1.name)), lines[i]))
  }

  /** `appendTo` with each jar line put under the key that `parseLines` gives it. */
  function AppendLinesByLineKey(existing: seq<string>, bag: Bag, compile: Compiler): Result<seq<string>, Error> {
    if |bag| == 0 then Success(existing)
    else
      var c :- CompiledLines(bag, compile);
      Success(Values(PutAll(ParsedLines(existing), KeyedByHead(bag, c))))
  }

  /** Putting lines that all hold `=` under their heads continues the parse. */
  lemma {:induction false} PutByHeadIsParse(existing: seq<string>, kvs: seq<(LineKey, string)>)
    requires forall i :: 0 <= i < |kvs| ==> kvs[i].0.Named? && ExplodeHead(kvs[i].1, '=') == KeyHead(kvs[i].0)
    ensures PutAll(ParsedLines(existing), kvs) == ParsedLines(existing + Values(kvs))
    decreases |kvs|
  {
    if |kvs| == 0 {
      assert existing + Values(kvs) == existing;
    } else {
      var n := |kvs| - 1;
      PutByHeadIsParse(existing, kvs[..n]);
      PutByHeadStep(existing, kvs);
    }
  }

  /** The inductive step of the above: one more line put under its head is one more line parsed. */
  lemma PutByHeadStep(existing: seq<string>, kvs: seq<(LineKey, string)>)
    requires |kvs| > 0 && kvs[|kvs| - 1].0.Named?
    requires ExplodeHead(kvs[|kvs| - 1].1, '=') == Some(kvs[|kvs| - 1].0.name)
    requires PutAll(ParsedLines(existing), kvs[..|kvs| - 1]) == ParsedLines(existing + Values(kvs[..|kvs| - 1]))
    ensures PutAll(ParsedLines(existing), kvs) == ParsedLines(existing + Values(kvs))
  {
    var n := |kvs| - 1;
    var init := existing + Values(kvs[..n]);
    ValuesSnoc(existing, kvs);
    ParseNamedStep(init, kvs[n].1, kvs[n].0.name);
    assert PutAll(ParsedLines(existing), kvs) == Put(ParsedLines(init), kvs[n].0, kvs[n].1);
  }

  /** The values of `kvs` are those of all but its last pair, then the last value. */
  lemma ValuesSnoc(existing: seq<string>, kvs: seq<(LineKey, string)>)
    requires |kvs| > 0
    ensures existing + Values(kvs[..|kvs| - 1]) + [kvs[|kvs| - 1].1] == existing + Values(kvs)
  {
    assert Values(kvs[..|kvs| - 1]) + [kvs[|kvs| - 1].1] == Values(kvs);
  }

  /** Parsing one more line that holds `=` puts it under its head. */
  lemma ParseNamedStep(lines: seq<string>, line: string, head: string)
    requires ExplodeHead(line, '=') == Some(head)
    ensures ParsedLines(lines + [line]) == Put(ParsedLines(lines), Named(head), line)
  {
    assert (lines + [line])[..|lines|] == lines;
  }

  /**
   * The corrected `appendTo` writes what parsing the existing lines followed
   * by the jar's compiled lines gives.
   */
  lemma AppendByLineKeyIsParse(existing: seq<string>, bag: Bag, compile: Compiler)
    requires KeysByEncodedName(compile)
    requires |bag| > 0 && CompiledLines(bag, compile).Success?
    ensures AppendLinesByLineKey(existing, bag, compile) ==
      Success(Values(ParsedLines(existing + CompiledLines(bag, compile).value)))
  {
    var c := CompiledLines(bag, compile).value;
    var kvs := KeyedByHead(bag, c);
    forall i | 0 <= i < |bag| ensures ExplodeHead(c[i], '=') == Some(UrlEncode(bag[i].1.name)) {
      assert Success(c[i]) == compile(bag[i].1);
    }
    assert Values(kvs) == c;
    PutByHeadIsParse(existing, kvs);
  }

  /** No two lines of a parsed array share the text before their first `=`. */
  lemma ParsedHeadsDistinct(lines: seq<string>)
    ensures forall i, j :: 0 <= i < j < |ParsedLines(lines)| && '=' in ParsedLines(lines)[i].1 ==>
      ExplodeHead(ParsedLines(lines)[i].1, '=') != ExplodeHead(ParsedLines(lines)[j].1, '=')
  {
    ParsedInvariant(lines);
  }

  /**
   * With the correction, a non-empty jar leaves at most one line per cookie
   * name: no two lines written share the text before their first `=`.
   */
  lemma AppendByLineKeyUnique(existing: seq<string>, bag: Bag, compile: Compiler)
    requires KeysByEncodedName(compile)
    requires |bag| > 0
    ensures AppendLinesByLineKey(existing, bag, compile).Success? <==> CompiledLines(bag, compile).Success?
    ensures AppendLinesByLineKey(existing, bag, compile).Success? ==>
      var r := AppendLinesByLineKey(existing, bag, compile).value;
      forall i, j :: 0 <= i < j < |r| && '=' in r[i] ==> ExplodeHead(r[i], '=') != ExplodeHead(r[j], '=')
  {
    if CompiledLines(bag, compile).Success? {
      AppendByLineKeyIsParse(existing, bag, compile);
      ParsedHeadsDistinct(existing + CompiledLines(bag, compile).value);
    }
  }

  /** Adding the same name again replaces the cookie, options included, and keeps its slot. */
  lemma ReAddReplaces(bag: Bag, name: string, c1: SetCookie, c2: SetCookie)
    ensures Put(Put(bag, name, c1), name, c2) == Put(bag, name, c2)
    ensures |Put(Put(bag, name, c1), name, c2)| == |Put(bag, name, c1)|
  {
    PutKeys(bag, name, c1);
    if name in Keys(bag) {
      assert IndexOf(Put(bag, name, c1), name) == IndexOf(bag, name);
    } else {
      assert IndexOf(Put(bag, name, c1), name) == |bag|;
    }
  }

  /** Merging over known defaults: the merged options are all known iff the per-call ones are. */
  lemma {:induction false} UnionKnown(options: Options, defaults: Options)
    requires AllKnown(defaults)
    ensures AllKnown(Union(options, defaults)) <==> AllKnown(options)
  {
    var u := Union(options, defaults);
    var ms := Missing(defaults, Keys(options));
    if AllKnown(options) {
      forall i | 0 <= i < |u| ensures IsKnownOption(u[i].0) {
        if i >= |options| {
          assert u[i] == ms[i - |options|];
          var j :| 0 <= j < |defaults| && defaults[j] == ms[i - |options|];
        }
      }
    }
    if AllKnown(u) {
      forall i | 0 <= i < |options| ensures IsKnownOption(options[i].0) {
        assert u[i] == options[i];
      }
    }
  }

  /** The jar object: the bag changes in place; the default options are fixed at construction. */
  class Oven {
    var bag: Bag
    const defaults: Options

    /** The constructed state: the defaults passed the option check. */
    predicate Valid() {
      AllKnown(defaults)
    }

    /** The object once `assertOptions($default_options)` has passed. */
    constructor Init(defaults: Options)
      requires AllKnown(defaults)
      ensures Valid()
      ensures this.defaults == defaults && bag == []
    {
      this.defaults := defaults;
      bag := [];
    }

    /** `new Oven($default_options)`: throws on an unknown default option key. */
    static method New(defaults: Options) returns (r: Result<Oven, Error>)
      ensures r.Success? <==> AllKnown(defaults)
      ensures r.Success? ==> fresh(r.value) && r.value.Valid() && r.value.defaults == defaults && r.value.bag == []
      ensures r.Failure? ==> Fail(r.error) == CheckOptions(defaults)
    {
      var checked := AssertOptions(defaults);
      if checked.Fail? {
        return Failure(checked.error);
      }
      var oven := new Oven.Init(defaults);
      return Success(oven);
    }

    /**
     * `add($name, $value, $options)`: the cookie is built first, with the
     * per-call options over the defaults; if that throws the bag is as it
     * was, otherwise the cookie is stored under `name`, replacing a
     * same-named one in its slot or appended.
     */
    method Add(name: string, value: Opt, options: Options) returns (r: Outcome<Error>)
      requires Valid()
      modifies this
      ensures r.Pass? <==> AllKnown(options)
      ensures r.Pass? ==> bag == Put(old(bag), name, SetCookie(name, Stringify(value), Union(options, defaults)))
      ensures r.Fail? ==> bag == old(bag) && Fail(r.error) == CheckOptions(Union(options, defaults))
    {
      UnionKnown(options, defaults);
      var made := NewSetCookie(name, value, Union(options, defaults));
      if made.Failure? {
        return Fail(made.error);
      }
      bag := Put(bag, name, made.value);
      return Pass;
    }

    /** `$oven[$offset] = $cookie`, with `$oven[] = $cookie` storing under the cookie's name. */
    method OffsetSet(offset: Option<string>, value: SetCookie)
      modifies this
      ensures bag == Put(old(bag), offset.GetOr(value.name), value)
    {
      bag := Put(bag, offset.GetOr(value.name), value);
    }

    /** `unset($oven[$offset])`: removes only that entry, and nothing when it is absent. */
    method OffsetUnset(offset: string)
      modifies this
      ensures bag == Remove(old(bag), offset)
    {
      bag := Remove(bag, offset);
    }

    /** `isset($oven[$offset])`. */
    method OffsetExists(offset: string) returns (b: bool)
      ensures b <==> Get(bag, offset).Some?
      ensures b <==> exists i :: 0 <= i < |bag| && bag[i].0 == offset
    {
      b := offset in Keys(bag);
    }

    /** `$oven[$offset]`: the stored cookie; reading a missing offset ends in an error. */
    method OffsetGet(offset: string) returns (r: Result<SetCookie, Error>)
      ensures r.Success? <==> exists i :: 0 <= i < |bag| && bag[i].0 == offset
      ensures r.Success? ==> (offset, r.value) in bag
      ensures r.Failure? ==> r.error == UndefinedOffset(offset)
    {
      if offset in Keys(bag) {
        r := Success(bag[IndexOf(bag, offset)].1);
      } else {
        r := Failure(UndefinedOffset(offset));
      }
    }

    /** `count($oven)`: the number of distinct names in the jar. */
    method Count() returns (n: nat)
      ensures n == |bag| && n == |Keys(bag)|
    {
      n := |bag|;
    }

    /** `foreach ($oven as $name => $cookie)`: the entries in insertion order. */
    method Entries() returns (entries: seq<(string, SetCookie)>)
      ensures entries == bag
      ensures DistinctKeys(entries)
    {
      entries := bag;
    }

    /** `parseLines($cookie_lines)`. */
    method ParseLines(lines: seq<string>) returns (parsed: Lines)
      ensures parsed == ParsedLines(lines)
    {
      parsed := [];
      var unkeyed := 0;
      var i := 0;
      while i < |lines|
        invariant 0 <= i <= |lines|
        invariant unkeyed == CountUnkeyed(lines[..i])
        invariant parsed == ParsedLines(lines[..i])
      {
        var line := lines[i];
        assert lines[..i + 1][..i] == lines[..i];
        var head := ExplodeHead(line, '=');
        if head.Some? {
          parsed := Put(parsed, Named(head.value), line);
        } else {
          parsed := Put(parsed, Positional(unkeyed), line);
          unkeyed := unkeyed + 1;
        }
        i := i + 1;
      }
      assert lines[..|lines|] == lines;
    }

    /** The loop writing the jar's lines under their names into `lines`. */
    method Bake(lines: Lines, now: int, fmt: int -> string) returns (r: Result<Lines, Error>)
      ensures r == Baked(lines, bag, LineCompiler(now, fmt))
    {
      var cookieLines := lines;
      var i := 0;
      while i < |bag|
        invariant 0 <= i <= |bag|
        invariant Baked(lines, bag[..i], LineCompiler(now, fmt)) == Success(cookieLines)
      {
        var (name, cookie) := bag[i];
        var line := CompileHeaderLine(cookie, now, fmt);
        assert LineCompiler(now, fmt)(cookie) == line;
        BakedStep(lines, bag, i, LineCompiler(now, fmt));
        if line.Failure? {
          BakedPrefixFailure(lines, bag, i + 1, LineCompiler(now, fmt));
          return Failure(line.error);
        }
        cookieLines := Put(cookieLines, Named(name), line.value);
        i := i + 1;
      }
      assert bag[..|bag|] == bag;
      return Success(cookieLines);
    }

    /** `setTo($response, $now)`: the response's lines become the jar's lines. */
    method SetTo(now: int, fmt: int -> string) returns (r: Result<seq<string>, Error>)
      ensures r == SetLines(bag, LineCompiler(now, fmt))
      ensures r == CompiledLines(bag, LineCompiler(now, fmt))
    {
      SetLinesAreCompiled(bag, LineCompiler(now, fmt));
      var baked := Bake([], now, fmt);
      if baked.Failure? {
        return Failure(baked.error);
      }
      return Success(Values(baked.value));
    }

    /** `appendTo($response, $now)`: merges the jar into the response's lines. */
    method AppendTo(existing: seq<string>, now: int, fmt: int -> string) returns (r: Result<seq<string>, Error>)
      ensures r == AppendLines(existing, bag, LineCompiler(now, fmt))
      ensures |bag| == 0 ==> r == Success(existing)
    {
      if |bag| == 0 {
        return Success(existing);
      }
      var cookieLines := ParseLines(existing);
      var baked := Bake(cookieLines, now, fmt);
      if baked.Failure? {
        return Failure(baked.error);
      }
      return Success(Values(baked.value));
    }
  }
}
