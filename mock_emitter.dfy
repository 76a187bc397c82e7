/**
 * `APIMockGenerator.generate_mock_code` and `generate_mock_server`: the text
 * of a Flask application with one view function per parsed endpoint.
 *
 * The time stamp each view returns is read from the clock once per endpoint;
 * here it is a parameter, one per endpoint.
 */
module MockEmitter {
  import opened Wrappers
  import opened Text
  import opened Json
  import opened OpenApiParser

  // ---------------------------------------------------------------------
  // One view function
  // ---------------------------------------------------------------------

  /**
   * The view function's name: `mock_`, the lower-cased method, then the path
   * with every `/` turned into `_`. No `/` of the path is left in it.
   */
  function HandlerName(e: Endpoint): (name: string)
    ensures |name| == |"mock_"| + |e.httpMethod| + |e.path|
    ensures StartsWith(name, "mock_")
    ensures forall i :: |"mock_"| + |e.httpMethod| <= i < |name| ==> name[i] != '/'
  {
    "mock_" + Lower(e.httpMethod) + ReplaceChar(e.path, '/', '_')
  }

  // The fixed pieces of the template, in the order they appear. Each piece
  // after a field starts with the character that ends the field, written
  // apart from the rest of the piece.
  const RouteOpen: string := "\n@app.route(\""
  const RouteMethods: string := "\"" + ", methods=[\""
  const DefLine: string := "\"" + "])\ndef "
  const DocOpen: string := "(" + "):\n    \"\"\""
  const MessageOpen: string := "\"" + "\"\"\n    return {\n        \"success\": True,\n        \"message\": \"Mock response for "
  const StampOpen: string := "\"" + ",\n        \"data\": {\n            \"id\": \"mock_id_123\",\n            \"timestamp\": \""
  const BlockClose: string := "\"" + "\n        }\n    }\n"

  /** The message the view returns: the method, a space, the path. */
  function Message(e: Endpoint): string {
    e.httpMethod + " " + e.path
  }

  /**
   * The code `generate_mock_code` produces for `e`, given the time stamp it
   * reads from the clock: a route decorator, a view function whose docstring
   * is the summary, and a dict literal it returns. The pieces are joined
   * from the right, as they are read back. The code opens with an empty
   * line and the route decorator for the endpoint's path and method.
   */
  function MockCode(e: Endpoint, timestamp: string): (code: string)
    ensures StartsWith(code, RouteOpen + e.path + RouteMethods + e.httpMethod)
  {
    var rest := DefLine + (HandlerName(e) + (DocOpen +
      (Display(e.summary) + (MessageOpen + (Message(e) + (StampOpen + (timestamp + BlockClose)))))));
    NestedPrefix(RouteOpen, e.path, RouteMethods, e.httpMethod, rest);
    RouteOpen + (e.path + (RouteMethods + (e.httpMethod + rest)))
  }

  /** Four pieces joined from the right start with the same pieces joined from the left. */
  lemma NestedPrefix(a: string, b: string, c: string, d: string, rest: string)
    ensures StartsWith(a + (b + (c + (d + rest))), a + b + c + d)
  {
    assert a + (b + (c + (d + rest))) == (a + b + c + d) + rest;
  }

  // ---------------------------------------------------------------------
  // Reading a view function back
  // ---------------------------------------------------------------------

  /** What can be read back from one generated view function. */
  datatype Block = Block(route: string, methods: string, handler: string, doc: string, message: string, timestamp: string)

  /** The block a generated view function for `e` should read back as. */
  function BlockOf(e: Endpoint, timestamp: string): Block {
    Block(e.path, e.httpMethod, HandlerName(e), Display(e.summary), Message(e), timestamp)
  }

  /** The rest of `s` after the literal `lit`, if `s` starts with it. */
  function Expect(s: string, lit: string): (r: Option<string>)
    ensures r.Some? <==> StartsWith(s, lit)
    ensures r.Some? ==> s == lit + r.value
  {
    if StartsWith(s, lit) then Some(s[|lit|..]) else None
  }

  /** `s` split before the first `c`, if there is one. */
  function TakeUntil(s: string, c: char): (r: Option<(string, string)>)
    ensures r.None? <==> c !in s
    ensures r.Some? ==> s == r.value.0 + r.value.1 && c !in r.value.0 && r.value.1 != [] && r.value.1[0] == c
    decreases |s|
  {
    if s == [] then None
    else if s[0] == c then Some(([], s))
    else
      var rest := TakeUntil(s[1..], c);
      assert s == [s[0]] + s[1..];
      if rest.None? then None
      else
        var (before, after) := rest.value;
        assert s == ([s[0]] + before) + after;
        Some(([s[0]] + before, after))
  }

  /** The decorator and the `def` line: route, methods, function name, and the text from `(` on. */
  function ReadHeader(s: string): (r: Option<(string, string, string, string)>)
    ensures r.Some? ==> |r.value.3| <= |s|
  {
    var r1 :- Expect(s, RouteOpen);
    var route :- TakeUntil(r1, '"');
    var r2 :- Expect(route.1, RouteMethods);
    var methods :- TakeUntil(r2, '"');
    var r3 :- Expect(methods.1, DefLine);
    var handler :- TakeUntil(r3, '(');
    Some((route.0, methods.0, handler.0, handler.1))
  }

  /** The body of a view function: docstring, message, time stamp, and the text after it. */
  function ReadBody(s: string): (r: Option<(string, string, string, string)>)
    ensures r.Some? ==> |r.value.3| < |s|
  {
    var r1 :- Expect(s, DocOpen);
    var doc :- TakeUntil(r1, '"');
    var r2 :- Expect(doc.1, MessageOpen);
    var message :- TakeUntil(r2, '"');
    var r3 :- Expect(message.1, StampOpen);
    var stamp :- TakeUntil(r3, '"');
    var rest :- Expect(stamp.1, BlockClose);
    Some((doc.0, message.0, stamp.0, rest))
  }

  /** The inverse of `MockCode`: the fields of one view function, and the text after it. */
  function ReadBlock(s: string): (r: Option<(Block, string)>)
    ensures r.Some? ==> |r.value.1| < |s|
  {
    var head :- ReadHeader(s);
    var body :- ReadBody(head.3);
    Some((Block(head.0, head.1, head.2, body.0, body.1, body.2), body.3))
  }

  lemma ExpectLiteral(lit: string, x: string)
    ensures Expect(lit + x, lit) == Some(x)
  {
    assert (lit + x)[..|lit|] == lit;
    assert (lit + x)[|lit|..] == x;
  }

  /** `TakeUntil` stops at the first `c` and nowhere else. */
  lemma TakeUntilFirst(v: string, w: string, c: char)
    requires c !in v && w != [] && w[0] == c
    ensures TakeUntil(v + w, c) == Some((v, w))
  {
    var s := v + w;
    assert s[|v|] == c;
    var p := TakeUntil(s, c).value;
    assert p.0 == s[..|p.0|] == v;
    assert p.1 == s[|p.0|..] == w;
  }

  /** The characters a field must avoid to be read back: the delimiter that ends it. */
  predicate Plain(e: Endpoint, timestamp: string) {
    && '"' !in e.path && '(' !in e.path
    && '"' !in e.httpMethod && '(' !in e.httpMethod
    && '"' !in Display(e.summary)
    && '"' !in timestamp
  }

  lemma HandlerNameHasNoParen(e: Endpoint)
    requires '(' !in e.path && '(' !in e.httpMethod
    ensures '(' !in HandlerName(e)
  {
    var l, p := Lower(e.httpMethod), ReplaceChar(e.path, '/', '_');
    assert forall i :: 0 <= i < |l| ==> l[i] != '(' by {
      forall i | 0 <= i < |l| ensures l[i] != '(' {
        assert e.httpMethod[i] != '(';
      }
    }
    assert forall i :: 0 <= i < |p| ==> p[i] != '(' by {
      forall i | 0 <= i < |p| ensures p[i] != '(' {
        assert e.path[i] != '(';
      }
    }
    assert HandlerName(e) == "mock_" + l + p;
  }

  /** The decorator and `def` line of `MockCode` read back. */
  lemma ReadHeaderOf(e: Endpoint, tail: string)
    requires Plain(e, "") && tail != [] && tail[0] == '('
    ensures ReadHeader(RouteOpen + (e.path + (RouteMethods + (e.httpMethod + (DefLine + (HandlerName(e) + tail)))))) ==
            Some((e.path, e.httpMethod, HandlerName(e), tail))
  {
    var h := HandlerName(e) + tail;
    var s1 := DefLine + h;
    var m := e.httpMethod + s1;
    var s0 := RouteMethods + m;
    var p := e.path + s0;
    assert RouteMethods[0] == DefLine[0] == '"';
    ExpectLiteral(RouteOpen, p);
    TakeUntilFirst(e.path, s0, '"');
    ExpectLiteral(RouteMethods, m);
    TakeUntilFirst(e.httpMethod, s1, '"');
    ExpectLiteral(DefLine, h);
    HandlerNameHasNoParen(e);
    TakeUntilFirst(HandlerName(e), tail, '(');
  }

  /** The body of `MockCode` read back. */
  lemma ReadBodyOf(e: Endpoint, timestamp: string, rest: string)
    requires Plain(e, timestamp)
    ensures ReadBody(DocOpen + (Display(e.summary) + (MessageOpen + (Message(e) + (StampOpen + (timestamp + (BlockClose + rest))))))) ==
            Some((Display(e.summary), Message(e), timestamp, rest))
  {
    var s7 := timestamp + (BlockClose + rest);
    var s6 := StampOpen + s7;
    var s5 := Message(e) + s6;
    var s4 := MessageOpen + s5;
    var s3 := Display(e.summary) + s4;
    assert MessageOpen[0] == '"';
    assert StampOpen[0] == '"';
    assert BlockClose[0] == '"';
    ExpectLiteral(DocOpen, s3);
    TakeUntilFirst(Display(e.summary), s4, '"');
    ExpectLiteral(MessageOpen, s5);
    assert '"' !in Message(e);
    TakeUntilFirst(Message(e), s6, '"');
    ExpectLiteral(StampOpen, s7);
    TakeUntilFirst(timestamp, BlockClose + rest, '"');
    ExpectLiteral(BlockClose, rest);
  }

  // A hint for the solver: Dafny knows this fact, and a call names the
  // three pieces of the long template that a proof step regroups.
  lemma AppendAssociates(a: string, b: string, c: string)
    ensures (a + b) + c == a + (b + c)
  {
  }

  /** Text after `MockCode` joins its last piece. */
  lemma MockCodeThen(e: Endpoint, timestamp: string, rest: string)
    ensures MockCode(e, timestamp) + rest ==
            RouteOpen + (e.path + (RouteMethods + (e.httpMethod + (DefLine + (HandlerName(e) + (DocOpen +
            (Display(e.summary) + (MessageOpen + (Message(e) + (StampOpen + (timestamp + (BlockClose + rest))))))))))))
  {
    var x11 := timestamp + BlockClose;
    var x10 := StampOpen + x11;
    var x9 := Message(e) + x10;
    var x8 := MessageOpen + x9;
    var x7 := Display(e.summary) + x8;
    var x6 := DocOpen + x7;
    var x5 := HandlerName(e) + x6;
    var x4 := DefLine + x5;
    var x3 := e.httpMethod + x4;
    var x2 := RouteMethods + x3;
    var x1 := e.path + x2;
    AppendAssociates(RouteOpen, x1, rest);
    AppendAssociates(e.path, x2, rest);
    AppendAssociates(RouteMethods, x3, rest);
    AppendAssociates(e.httpMethod, x4, rest);
    AppendAssociates(DefLine, x5, rest);
    AppendAssociates(HandlerName(e), x6, rest);
    AppendAssociates(DocOpen, x7, rest);
    AppendAssociates(Display(e.summary), x8, rest);
    AppendAssociates(MessageOpen, x9, rest);
    AppendAssociates(Message(e), x10, rest);
    AppendAssociates(StampOpen, x11, rest);
    AppendAssociates(timestamp, BlockClose, rest);
  }

  /**
   * `MockCode` can be read back: the route and the methods list hold the
   * endpoint's path and method, the function is named `HandlerName(e)`, its
   * docstring is the summary, and the message and time stamp are returned.
   */
  lemma ReadMockCode(e: Endpoint, timestamp: string, rest: string)
    requires Plain(e, timestamp)
    ensures ReadBlock(MockCode(e, timestamp) + rest) == Some((BlockOf(e, timestamp), rest))
  {
    var body := DocOpen + (Display(e.summary) + (MessageOpen + (Message(e) + (StampOpen + (timestamp + (BlockClose + rest))))));
    MockCodeThen(e, timestamp, rest);
    assert DocOpen[0] == '(';
    ReadHeaderOf(e, body);
    ReadBodyOf(e, timestamp, rest);
  }

  // ---------------------------------------------------------------------
  // Function names
  // ---------------------------------------------------------------------

  /** `/a_b` and `/a/b` get the same function name, so the second definition replaces the first. */
  lemma HandlerNamesCollide(httpMethod: string, s1: Json, r1: Json, s2: Json, r2: Json)
    ensures HandlerName(Endpoint("/a_b", httpMethod, s1, r1)) == HandlerName(Endpoint("/a/b", httpMethod, s2, r2))
  {
    assert ReplaceChar("/a_b", '/', '_') == "_a_b" == ReplaceChar("/a/b", '/', '_');
  }

  /** `LowerChar` leaves `_` alone and makes no new one. */
  lemma LowerKeepsUnderscore(s: string)
    ensures forall i :: 0 <= i < |s| ==> (Lower(s)[i] == '_' <==> s[i] == '_')
  {
  }

  /** In a name built as `mock_` + `l` + `p`, where `p` starts with `_` and `l` has none, the second `_` ends `l`. */
  lemma FirstUnderscore(n: string, l: string, p: string)
    requires n == "mock_" + l + p && '_' !in l && |p| > 0 && p[0] == '_'
    ensures |n| > 5 + |l| && n[5 + |l|] == '_'
    ensures forall i :: 5 <= i < 5 + |l| ==> n[i] != '_'
  {
    assert n[5 + |l|] == p[0];
    forall i | 5 <= i < 5 + |l| ensures n[i] != '_' {
      assert n[i] == l[i - 5];
    }
  }

  /**
   * Without `_` in paths or methods, and with paths starting with `/`, two
   * endpoints get the same function name exactly when their paths are equal
   * and their methods are equal up to case.
   */
  lemma {:induction false} HandlerNameInjective(e1: Endpoint, e2: Endpoint)
    requires |e1.path| > 0 && e1.path[0] == '/' && '_' !in e1.path && '_' !in e1.httpMethod
    requires |e2.path| > 0 && e2.path[0] == '/' && '_' !in e2.path && '_' !in e2.httpMethod
    ensures HandlerName(e1) == HandlerName(e2) <==> Lower(e1.httpMethod) == Lower(e2.httpMethod) && e1.path == e2.path
  {
    var l1, p1 := Lower(e1.httpMethod), ReplaceChar(e1.path, '/', '_');
    var l2, p2 := Lower(e2.httpMethod), ReplaceChar(e2.path, '/', '_');
    var n1, n2 := HandlerName(e1), HandlerName(e2);
    assert n1 == "mock_" + l1 + p1 && n2 == "mock_" + l2 + p2;
    if n1 == n2 {
      LowerKeepsUnderscore(e1.httpMethod);
      LowerKeepsUnderscore(e2.httpMethod);
      assert '_' !in l1 && '_' !in l2;
      FirstUnderscore(n1, l1, p1);
      FirstUnderscore(n2, l2, p2);
      assert |l1| == |l2|;
      assert l1 == n1[5..5 + |l1|] == l2;
      assert p1 == n1[5 + |l1|..] == p2;
      forall i | 0 <= i < |e1.path| ensures e1.path[i] == e2.path[i] {
        assert p1[i] == p2[i];
        assert e1.path[i] != '_' && e2.path[i] != '_';
      }
    }
  }

  // ---------------------------------------------------------------------
  // The whole server
  // ---------------------------------------------------------------------

  /** The header of the generated file: a comment, the Flask import, the application object. */
  const Preamble: string := "# AI\U{751f}\U{6210}\U{7684}Mock\U{670d}\U{52a1}\U{5668}\nfrom flask import Flask, jsonify\n\napp = Flask(__name__)\n\n"

  /**
   * The footer: run the application on port 5000 when the file is executed.
   * Its first two characters are written apart: the `i` after the newline
   * is what tells the footer from a view function, which starts `\n@`.
   */
  const Epilogue: string := "\ni" + "f __name__ == \"__main__\":\n    print(\"\U{1f680} Mock Server starting on port 5000\")\n    app.run(port=5000)\n"

  /** Texts one after another, each followed by an empty line. */
  function Lines(texts: seq<string>): string {
    if texts == [] then "" else texts[0] + ("\n" + Lines(texts[1..]))
  }

  /** One more text adds it and an empty line at the end. */
  lemma {:induction false} LinesSnoc(texts: seq<string>, x: string)
    ensures Lines(texts + [x]) == Lines(texts) + x + "\n"
    decreases |texts|
  {
    var xs := texts + [x];
    if texts == [] {
      assert xs[1..] == [];
      assert Lines(xs) == x + ("\n" + "");
    } else {
      assert xs[1..] == texts[1..] + [x];
      LinesSnoc(texts[1..], x);
      var tail := Lines(texts[1..]);
      assert Lines(xs) == texts[0] + ("\n" + (tail + x + "\n"));
    }
  }

  /** The view function of each endpoint, in order. */
  function Codes(endpoints: seq<Endpoint>, stamps: seq<string>): seq<string>
    requires |stamps| == |endpoints|
  {
    seq(|endpoints|, i requires 0 <= i < |endpoints| => MockCode(endpoints[i], stamps[i]))
  }

  /** Before the loop: the header and no view function yet. */
  lemma LinesStart(header: string, texts: seq<string>)
    ensures header == header + Lines(texts[..0])
  {
    assert texts[..0] == [];
  }

  /** One turn of the loop: text `i` and an empty line join the code. */
  lemma LinesStep(header: string, texts: seq<string>, i: nat, before: string, after: string)
    requires i < |texts| && before == header + Lines(texts[..i]) && after == before + texts[i] + "\n"
    ensures after == header + Lines(texts[..i + 1])
  {
    LinesSnoc(texts[..i], texts[i]);
    assert texts[..i + 1] == texts[..i] + [texts[i]];
  }

  /**
   * `generate_mock_server`: the header, then each endpoint's view function
   * followed by an empty line, then the footer. `stamps[i]` is the clock
   * reading taken while generating endpoint `i`.
   */
  method GenerateMockServer(endpoints: seq<Endpoint>, stamps: seq<string>) returns (code: string)
    requires |stamps| == |endpoints|
    ensures code == Preamble + Lines(Codes(endpoints, stamps)) + Epilogue
  {
    ghost var codes := Codes(endpoints, stamps);
    code := Preamble;
    LinesStart(code, codes);
    for i := 0 to |endpoints|
      invariant code == Preamble + Lines(codes[..i])
    {
      ghost var before := code;
      code := code + MockCode(endpoints[i], stamps[i]);
      code := code + "\n";
      LinesStep(Preamble, codes, i, before, code);
    }
    assert codes[..|endpoints|] == codes;
    code := code + Epilogue;
  }

  /** Without endpoints the file is the header followed by the footer, which reads back as no view function. */
  lemma EmptyServer()
    ensures Preamble + Lines(Codes([], [])) + Epilogue == Preamble + Epilogue
    ensures ReadServer(Preamble + Epilogue) == Some([])
  {
    assert Codes([], []) == [];
    ExpectLiteral(Preamble, Epilogue);
    assert Epilogue[1] == 'i';
  }

  /** The footer starts the server on port 5000. */
  lemma EpiloguePort()
    ensures Contains(Epilogue, "port=5000")
  {
    var before := "\ni" + "f __name__ == \"__main__\":\n    print(\"\U{1f680} Mock Server starting on port 5000\")\n    app.run(";
    assert Epilogue == before + "port=5000" + ")\n";
    ContainsMiddle(before, "port=5000", ")\n");
  }

  /** The view functions of a generated file, read back up to the footer. */
  function ReadBlocks(s: string): Option<seq<Block>>
    decreases |s|
  {
    if |s| > 1 && s[1] == '@' then
      var b :- ReadBlock(s);
      var next :- Expect(b.1, "\n");
      var bs :- ReadBlocks(next);
      Some([b.0] + bs)
    else if s == Epilogue then Some([])
    else None
  }

  /** The inverse of `generate_mock_server`: the view functions of a whole file. */
  function ReadServer(code: string): Option<seq<Block>> {
    var rest :- Expect(code, Preamble);
    ReadBlocks(rest)
  }

  /** Every endpoint, with its time stamp, can be read back. */
  predicate AllPlain(endpoints: seq<Endpoint>, stamps: seq<string>)
    requires |stamps| == |endpoints|
  {
    forall i :: 0 <= i < |endpoints| ==> Plain(endpoints[i], stamps[i])
  }

  /** `text` reads back as `b`, whatever follows it, and starts as a view function does. */
  ghost predicate Readable(text: string, b: Block) {
    |text| > 1 && text[1] == '@' && forall rest :: ReadBlock(text + rest) == Some((b, rest))
  }

  lemma MockCodeReadable(e: Endpoint, timestamp: string)
    requires Plain(e, timestamp)
    ensures Readable(MockCode(e, timestamp), BlockOf(e, timestamp))
  {
    forall rest ensures ReadBlock(MockCode(e, timestamp) + rest) == Some((BlockOf(e, timestamp), rest)) {
      ReadMockCode(e, timestamp, rest);
    }
    MockCodeStart(e, timestamp);
  }

  lemma MockCodeStart(e: Endpoint, timestamp: string)
    ensures |MockCode(e, timestamp)| > 1 && MockCode(e, timestamp)[1] == '@'
  {
    assert RouteOpen[1] == '@';
  }

  /** A readable text and an empty line, then the rest of the file. */
  lemma ReadOneBlock(text: string, b: Block, later: string)
    requires Readable(text, b)
    ensures ReadBlocks(text + ("\n" + later)) ==
            if ReadBlocks(later).Some? then Some([b] + ReadBlocks(later).value) else None
  {
    var s := text + ("\n" + later);
    assert ReadBlock(s) == Some((b, "\n" + later));
    assert s[1] == text[1];
    ExpectLiteral("\n", later);
  }

  // A hint for the solver: it makes the solver rewrite the text that is
  // read back in one step, instead of searching for that rewriting itself.
  lemma SameText(a: string, b: string)
    requires a == b
    ensures ReadBlocks(a) == ReadBlocks(b)
  {
  }

  /** Each text reads back as the block at the same position. */
  ghost predicate ReadsBack(texts: seq<string>, blocks: seq<Block>)
    decreases |texts|
  {
    |texts| == |blocks| && (texts != [] ==> Readable(texts[0], blocks[0]) && ReadsBack(texts[1..], blocks[1..]))
  }

  /** Readable texts, each followed by an empty line, then the footer, read back in order. */
  lemma {:induction false} ReadLines(texts: seq<string>, blocks: seq<Block>)
    requires ReadsBack(texts, blocks)
    ensures ReadBlocks(Lines(texts) + Epilogue) == Some(blocks)
    decreases |texts|
  {
    if texts == [] {
      assert Lines(texts) + Epilogue == Epilogue;
      assert Epilogue[1] == 'i';
    } else {
      ReadLines(texts[1..], blocks[1..]);
      ReadLinesStep(texts[0], texts[1..], blocks[0], blocks[1..]);
      assert texts == [texts[0]] + texts[1..];
      assert blocks == [blocks[0]] + blocks[1..];
    }
  }

  /** One more readable text in front of a file that reads back. */
  lemma ReadLinesStep(first: string, rest: seq<string>, b: Block, bs: seq<Block>)
    requires Readable(first, b) && ReadBlocks(Lines(rest) + Epilogue) == Some(bs)
    ensures ReadBlocks(Lines([first] + rest) + Epilogue) == Some([b] + bs)
  {
    var texts := [first] + rest;
    assert texts[0] == first && texts[1..] == rest;
    var later := Lines(rest) + Epilogue;
    AppendAssociates(first, "\n" + Lines(rest), Epilogue);
    AppendAssociates("\n", Lines(rest), Epilogue);
    assert Lines(texts) + Epilogue == first + ("\n" + later);
    ReadOneBlock(first, b, later);
    SameText(Lines(texts) + Epilogue, first + ("\n" + later));
  }

  /** What the view functions for `endpoints` should read back as. */
  function BlocksOf(endpoints: seq<Endpoint>, stamps: seq<string>): seq<Block>
    requires |stamps| == |endpoints|
  {
    seq(|endpoints|, i requires 0 <= i < |endpoints| => BlockOf(endpoints[i], stamps[i]))
  }

  lemma {:induction false} CodesReadable(endpoints: seq<Endpoint>, stamps: seq<string>)
    requires |stamps| == |endpoints| && AllPlain(endpoints, stamps)
    ensures ReadsBack(Codes(endpoints, stamps), BlocksOf(endpoints, stamps))
    decreases |endpoints|
  {
    if endpoints != [] {
      var es, ts := endpoints[1..], stamps[1..];
      assert AllPlain(es, ts) by {
        forall i | 0 <= i < |es| ensures Plain(es[i], ts[i]) {
          assert Plain(endpoints[i + 1], stamps[i + 1]);
        }
      }
      CodesReadable(es, ts);
      var codes, blocks := Codes(endpoints, stamps), BlocksOf(endpoints, stamps);
      assert codes[1..] == Codes(es, ts);
      assert blocks[1..] == BlocksOf(es, ts);
      assert Plain(endpoints[0], stamps[0]);
      MockCodeReadable(endpoints[0], stamps[0]);
      assert codes[0] == MockCode(endpoints[0], stamps[0]) && blocks[0] == BlockOf(endpoints[0], stamps[0]);
      ReadsBackCons(codes, blocks);
    }
  }

  lemma ReadsBackCons(texts: seq<string>, blocks: seq<Block>)
    requires |texts| == |blocks| && texts != []
    requires Readable(texts[0], blocks[0]) && ReadsBack(texts[1..], blocks[1..])
    ensures ReadsBack(texts, blocks)
  {
  }

  /**
   * The file `generate_mock_server` writes can be read back, one view
   * function per endpoint in order, each with the endpoint's route, method,
   * function name, docstring, message and time stamp.
   */
  lemma ServerRoundTrip(endpoints: seq<Endpoint>, stamps: seq<string>)
    requires |stamps| == |endpoints| && AllPlain(endpoints, stamps)
    ensures var r := ReadServer(Preamble + Lines(Codes(endpoints, stamps)) + Epilogue);
            r.Some? && |r.value| == |endpoints| &&
            forall i :: 0 <= i < |endpoints| ==> r.value[i] == BlockOf(endpoints[i], stamps[i])
  {
    var codes := Codes(endpoints, stamps);
    CodesReadable(endpoints, stamps);
    ReadLines(codes, BlocksOf(endpoints, stamps));
    var body := Lines(codes) + Epilogue;
    AppendAssociates(Preamble, Lines(codes), Epilogue);
    ExpectLiteral(Preamble, body);
  }
}
