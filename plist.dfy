/** `getPList`: the launchd property list the client writes for the provider, together with a
    reader that takes such a text back, through its XML tokens, to the entries of its dictionary. */
module PList {
  import opened Wrappers
  import opened Text

  // ---------------------------------------------------------------------------------------------
  // The text getPList builds
  // ---------------------------------------------------------------------------------------------

  /** The opening of every property list: the three lines of the multi-line literal, joined by
      line breaks, with no break after the last one. */
  const Header: string := "<?xml version=\"1.0\" encoding=\"UTF-8\"?>\n"
    + "<!DOCTYPE plist PUBLIC \"-//Apple Computer//DTD PLIST 1.0//EN\" \"http://www.apple.com/DTDs/PropertyList-1.0.dtd\">\n"
    + "<plist version=\"1.0\"><dict>"

  const Footer: string := "</dict></plist>"

  /** Each argument wrapped in `<string>` and `</string>`, the wrapped pieces joined with nothing
      between them. */
  function StringElements(items: seq<string>): string
  {
    if items == [] then "" else "<string>" + items[0] + "</string>" + StringElements(items[1..])
  }

  /** `getPList(label:runAtLoad:keepAlive:exec:args:)`: the opening, the label, `Program` when
      there are no arguments or `ProgramArguments` (the executable first) when there are, the
      two optional flags, and the closing. */
  function GetPList(labelText: string, runAtLoad: bool, keepAlive: bool, exec: string,
                    args: Option<seq<string>>): (text: string)
    ensures |text| > |Header| + |Footer|
    ensures text[..|Header|] == Header && text[|text| - |Footer|..] == Footer
  {
    Bracketed(Header, LabelPart(labelText), ProgramPart(exec, args), RunAtLoadPart(runAtLoad),
              KeepAlivePart(keepAlive), Footer);
    Header + LabelPart(labelText) + ProgramPart(exec, args) + RunAtLoadPart(runAtLoad) + KeepAlivePart(keepAlive)
    + Footer
  }

  lemma Bracketed(h: string, a: string, b: string, c: string, d: string, f: string)
    requires a != []
    ensures var t := h + a + b + c + d + f;
      |t| > |h| + |f| && t[..|h|] == h && t[|t| - |f|..] == f
  {
    var t := h + a + b + c + d + f;
    assert t == h + (a + b + c + d) + f;
  }

  function LabelPart(labelText: string): string
  {
    "<key>Label</key><string>" + labelText + "</string>"
  }

  function ProgramPart(exec: string, args: Option<seq<string>>): string
  {
    if args.None? then "<key>Program</key><string>" + exec + "</string>"
    else "<key>ProgramArguments</key><array><string>" + exec + "</string>" + StringElements(args.value) + "</array>"
  }

  function RunAtLoadPart(runAtLoad: bool): string
  {
    if runAtLoad then "<key>RunAtLoad</key><true/>" else ""
  }

  function KeepAlivePart(keepAlive: bool): string
  {
    if keepAlive then "<key>KeepAlive</key><true/>" else ""
  }

  // ---------------------------------------------------------------------------------------------
  // What the property list says
  // ---------------------------------------------------------------------------------------------

  /** A value of the dictionary: a string, an array of strings, or `<true/>`. */
  datatype Value = Str(text: string) | Strings(items: seq<string>) | Yes

  datatype Entry = Entry(key: string, value: Value)

  function ProgramEntry(exec: string, args: Option<seq<string>>): Entry
  {
    if args.None? then Entry("Program", Str(exec)) else Entry("ProgramArguments", Strings([exec] + args.value))
  }

  function FlagEntries(runAtLoad: bool, keepAlive: bool): seq<Entry>
  {
    (if runAtLoad then [Entry("RunAtLoad", Yes)] else []) + (if keepAlive then [Entry("KeepAlive", Yes)] else [])
  }

  /** The entries `getPList` means to write, in order. */
  function Entries(labelText: string, runAtLoad: bool, keepAlive: bool, exec: string,
                   args: Option<seq<string>>): seq<Entry>
  {
    [Entry("Label", Str(labelText))] + ([ProgramEntry(exec, args)] + FlagEntries(runAtLoad, keepAlive))
  }

  predicate HasKey(es: seq<Entry>, key: string)
  {
    es != [] && (es[0].key == key || HasKey(es[1..], key))
  }

  /** The value of the first entry with `key`. */
  function Lookup(es: seq<Entry>, key: string): (v: Option<Value>)
    ensures v.Some? <==> HasKey(es, key)
  {
    if es == [] then None
    else if es[0].key == key then Some(es[0].value)
    else Lookup(es[1..], key)
  }

  predicate DistinctKeys(es: seq<Entry>)
  {
    es == [] || (!HasKey(es[1..], es[0].key) && DistinctKeys(es[1..]))
  }

  lemma EntriesCons(e: Entry, rest: seq<Entry>)
    ensures HasKey([e] + rest, e.key)
    ensures forall k :: HasKey([e] + rest, k) <==> e.key == k || HasKey(rest, k)
    ensures forall k :: Lookup([e] + rest, k) == if e.key == k then Some(e.value) else Lookup(rest, k)
    ensures DistinctKeys([e] + rest) <==> !HasKey(rest, e.key) && DistinctKeys(rest)
  {
    assert ([e] + rest)[0] == e && ([e] + rest)[1..] == rest;
  }

  // ---------------------------------------------------------------------------------------------
  // XML tokens
  // ---------------------------------------------------------------------------------------------

  /** A tag `<name>` (its name taken verbatim, attributes and slashes included) or a run of
      character data. */
  datatype Token = Tag(name: string) | Chars(text: string)

  function TokenText(t: Token): string
  {
    match t
    case Tag(n) => "<" + n + ">"
    case Chars(s) => s
  }

  function Render(ts: seq<Token>): string
  {
    if ts == [] then "" else TokenText(ts[0]) + Render(ts[1..])
  }

  lemma RenderCons(t: Token, ts: seq<Token>)
    ensures Render([t] + ts) == TokenText(t) + Render(ts)
  {
    assert ([t] + ts)[0] == t && ([t] + ts)[1..] == ts;
  }

  lemma {:induction false} RenderConcat(a: seq<Token>, b: seq<Token>)
    ensures Render(a + b) == Render(a) + Render(b)
  {
    if a == [] {
      assert a + b == b;
    } else {
      assert (a + b)[0] == a[0] && (a + b)[1..] == a[1..] + b;
      RenderConcat(a[1..], b);
    }
  }

  /** Character data holding no `<`. */
  predicate Plain(s: string)
  {
    '<' !in s
  }

  predicate GoodToken(t: Token)
  {
    match t
    case Tag(n) => '>' !in n
    case Chars(s) => s != [] && Plain(s)
  }

  /** A token sequence that rendering does not blur: tag names hold no `>`, character data is
      non-empty and plain, and two runs of character data never touch. */
  predicate WellFormed(ts: seq<Token>)
  {
    ts == [] || (GoodToken(ts[0]) && (ts[0].Chars? && |ts| > 1 ==> ts[1].Tag?) && WellFormed(ts[1..]))
  }

  lemma WellFormedCons(t: Token, ts: seq<Token>)
    requires GoodToken(t) && WellFormed(ts) && (t.Chars? && ts != [] ==> ts[0].Tag?)
    ensures WellFormed([t] + ts)
  {
    assert ([t] + ts)[0] == t && ([t] + ts)[1..] == ts;
  }

  /** A well-formed sequence that ends in a tag can be followed by any well-formed one. */
  lemma {:induction false} WellFormedConcat(a: seq<Token>, b: seq<Token>)
    requires WellFormed(a) && WellFormed(b) && (a == [] || a[|a| - 1].Tag?)
    ensures WellFormed(a + b)
  {
    if a == [] {
      assert a + b == b;
    } else {
      var ab := a + b;
      assert ab[0] == a[0] && ab[1..] == a[1..] + b;
      if |a| == 1 {
        assert a[1..] + b == b;
        assert a[0].Tag?;
      } else {
        assert ab[1] == a[1];
        assert a[1..][|a| - 2] == a[|a| - 1];
        WellFormedConcat(a[1..], b);
      }
    }
  }

  /** The index of the first `c` in `s`, or `|s|` when there is none. */
  function Find(s: string, c: char): (k: nat)
    ensures k <= |s| && (k < |s| ==> s[k] == c)
  {
    if s == [] || s[0] == c then 0 else 1 + Find(s[1..], c)
  }

  /** `Find` stops at the first `c` and nowhere else. */
  lemma {:induction false} FindOf(a: string, b: string, c: char)
    requires c !in a && (b == [] || b[0] == c)
    ensures Find(a + b, c) == |a|
  {
    if a == [] {
      assert a + b == b;
    } else {
      assert (a + b)[0] == a[0] && (a + b)[1..] == a[1..] + b;
      FindOf(a[1..], b, c);
    }
  }

  /** Cuts a text into tokens: a `<` opens a tag that the next `>` closes, and anything else runs
      up to the next `<`. A `<` that no `>` closes makes the text unreadable. */
  function Scan(s: string): Option<seq<Token>>
    decreases |s|
  {
    if s == [] then Some([])
    else if s[0] == '<' then
      var k := Find(s[1..], '>');
      if k == |s| - 1 then None
      else
        match Scan(s[k + 2..])
        case None => None
        case Some(rest) => Some([Tag(s[1..k + 1])] + rest)
    else
      var k := Find(s, '<');
      match Scan(s[k..])
      case None => None
      case Some(rest) => Some([Chars(s[..k])] + rest)
  }

  /** The scan of a tag followed by anything. */
  lemma ScanTag(n: string, rest: string, r: seq<Token>)
    requires '>' !in n && Scan(rest) == Some(r)
    ensures Scan("<" + n + ">" + rest) == Some([Tag(n)] + r)
  {
    var s := "<" + n + ">" + rest;
    assert s[0] == '<';
    assert s[1..] == n + (">" + rest);
    FindOf(n, ">" + rest, '>');
    assert s[1..|n| + 1] == n;
    assert s[|n| + 2..] == rest;
  }

  /** The scan of plain character data followed by nothing or by a tag. */
  lemma ScanChars(x: string, rest: string, r: seq<Token>)
    requires x != [] && Plain(x) && (rest == [] || rest[0] == '<') && Scan(rest) == Some(r)
    ensures Scan(x + rest) == Some([Chars(x)] + r)
  {
    var s := x + rest;
    assert s[0] == x[0];
    FindOf(x, rest, '<');
    assert s[..|x|] == x;
    assert s[|x|..] == rest;
  }

  /** The rendering of a sequence that starts with a tag starts with `<`. */
  lemma RenderOfTag(ts: seq<Token>)
    requires ts != [] && ts[0].Tag?
    ensures Render(ts) != [] && Render(ts)[0] == '<'
  {
    assert Render(ts) == "<" + ts[0].name + ">" + Render(ts[1..]);
  }

  /** Scanning undoes rendering on well-formed tokens. */
  lemma {:induction false} ScanRender(ts: seq<Token>)
    requires WellFormed(ts)
    ensures Scan(Render(ts)) == Some(ts)
  {
    if ts != [] {
      var tail := ts[1..];
      var rest := Render(tail);
      ScanRender(tail);
      assert ts == [ts[0]] + tail;
      assert Render(ts) == TokenText(ts[0]) + rest;
      match ts[0]
      case Tag(n) =>
        ScanTag(n, rest, tail);
      case Chars(x) =>
        if tail != [] { RenderOfTag(tail); }
        ScanChars(x, rest, tail);
    }
  }

  // ---------------------------------------------------------------------------------------------
  // The tokens of the dictionary
  // ---------------------------------------------------------------------------------------------

  /** A `<string>` element; an empty string leaves no character data between the tags. */
  function StringTokens(s: string): seq<Token>
  {
    [Tag("string")] + ((if s == [] then [] else [Chars(s)]) + [Tag("/string")])
  }

  function StringsTokens(items: seq<string>): seq<Token>
  {
    if items == [] then [] else StringTokens(items[0]) + StringsTokens(items[1..])
  }

  function ValueTokens(v: Value): seq<Token>
  {
    match v
    case Str(s) => StringTokens(s)
    case Strings(items) => [Tag("array")] + (StringsTokens(items) + [Tag("/array")])
    case Yes => [Tag("true/")]
  }

  function EntriesTokens(es: seq<Entry>): seq<Token>
  {
    if es == [] then []
    else [Tag("key")] + ([Chars(es[0].key)] + ([Tag("/key")] + (ValueTokens(es[0].value) + EntriesTokens(es[1..]))))
  }

  // ---------------------------------------------------------------------------------------------
  // Reading a property list back
  // ---------------------------------------------------------------------------------------------

  /** One `<string>` element off the front of `ts`, and what follows it. */
  function ReadString(ts: seq<Token>): (r: Option<(string, seq<Token>)>)
    ensures r.Some? ==> |r.value.1| < |ts|
  {
    if |ts| >= 2 && ts[0] == Tag("string") && ts[1] == Tag("/string") then Some(("", ts[2..]))
    else if |ts| >= 3 && ts[0] == Tag("string") && ts[1].Chars? && ts[2] == Tag("/string") then
      Some((ts[1].text, ts[3..]))
    else None
  }

  /** `<string>` elements up to and including the `</array>` that closes them. */
  function ReadStrings(ts: seq<Token>): (r: Option<(seq<string>, seq<Token>)>)
    ensures r.Some? ==> |r.value.1| < |ts|
    decreases |ts|
  {
    if |ts| >= 1 && ts[0] == Tag("/array") then Some(([], ts[1..]))
    else
      match ReadString(ts)
      case None => None
      case Some((s, rest)) =>
        match ReadStrings(rest)
        case None => None
        case Some((items, after)) => Some(([s] + items, after))
  }

  function ReadValue(ts: seq<Token>): (r: Option<(Value, seq<Token>)>)
    ensures r.Some? ==> |r.value.1| < |ts|
  {
    if |ts| >= 1 && ts[0] == Tag("true/") then Some((Yes, ts[1..]))
    else if |ts| >= 1 && ts[0] == Tag("array") then
      match ReadStrings(ts[1..])
      case None => None
      case Some((items, rest)) => Some((Strings(items), rest))
    else
      match ReadString(ts)
      case None => None
      case Some((s, rest)) => Some((Str(s), rest))
  }

  /** The `<key>` and value pairs that make up all of `ts`. */
  function ReadEntries(ts: seq<Token>): Option<seq<Entry>>
    decreases |ts|
  {
    if ts == [] then Some([])
    else if |ts| >= 3 && ts[0] == Tag("key") && ts[1].Chars? && ts[2] == Tag("/key") then
      match ReadValue(ts[3..])
      case None => None
      case Some((v, rest)) =>
        match ReadEntries(rest)
        case None => None
        case Some(es) => Some([Entry(ts[1].text, v)] + es)
    else None
  }

  /** A property-list text read back: the opening and the closing compared verbatim, and the
      dictionary between them scanned into tokens and read as entries, character data taken
      verbatim. */
  function ReadPList(text: string): Option<seq<Entry>>
  {
    var h, f := |Header|, |Footer|;
    if |text| < h + f || text[..h] != Header || text[|text| - f..] != Footer then None
    else
      match Scan(text[h..|text| - f])
      case None => None
      case Some(ts) => ReadEntries(ts)
  }

  // ---------------------------------------------------------------------------------------------
  // Reading undoes writing, on tokens
  // ---------------------------------------------------------------------------------------------

  lemma ReadStringOf(s: string, rest: seq<Token>)
    ensures ReadString(StringTokens(s) + rest) == Some((s, rest))
  {
    var ts := StringTokens(s) + rest;
    if s == [] {
      assert ts[2..] == rest;
    } else {
      assert ts[1] == Chars(s) && ts[3..] == rest;
    }
  }

  lemma {:induction false} ReadStringsOf(items: seq<string>, rest: seq<Token>)
    ensures ReadStrings(StringsTokens(items) + [Tag("/array")] + rest) == Some((items, rest))
  {
    var ts := StringsTokens(items) + [Tag("/array")] + rest;
    if items == [] {
      assert ts == [Tag("/array")] + rest;
      assert ts[1..] == rest;
    } else {
      var tail := StringsTokens(items[1..]) + [Tag("/array")] + rest;
      assert ts == StringTokens(items[0]) + tail;
      assert ts[0] == Tag("string");
      ReadStringOf(items[0], tail);
      ReadStringsOf(items[1..], rest);
      assert [items[0]] + items[1..] == items;
    }
  }

  lemma ReadValueOf(v: Value, rest: seq<Token>)
    ensures ReadValue(ValueTokens(v) + rest) == Some((v, rest))
  {
    var ts := ValueTokens(v) + rest;
    match v
    case Str(s) =>
      assert ts[0] == Tag("string");
      ReadStringOf(s, rest);
    case Strings(items) =>
      assert ts[0] == Tag("array");
      assert ts[1..] == StringsTokens(items) + [Tag("/array")] + rest;
      ReadStringsOf(items, rest);
    case Yes =>
      assert ts[1..] == rest;
  }

  predicate AllPlain(items: seq<string>)
  {
    forall i :: 0 <= i < |items| ==> Plain(items[i])
  }

  /** Every string of `v` is plain. */
  predicate PlainValue(v: Value)
  {
    match v
    case Str(s) => Plain(s)
    case Strings(items) => AllPlain(items)
    case Yes => true
  }

  /** Every key is non-empty and plain, and every value is plain. */
  predicate PlainEntries(es: seq<Entry>)
  {
    es == [] || (es[0].key != [] && Plain(es[0].key) && PlainValue(es[0].value) && PlainEntries(es[1..]))
  }

  lemma {:induction false} ReadEntriesOf(es: seq<Entry>)
    requires PlainEntries(es)
    ensures ReadEntries(EntriesTokens(es)) == Some(es)
  {
    if es != [] {
      var rest := EntriesTokens(es[1..]);
      ReadValueOf(es[0].value, rest);
      ReadEntriesOf(es[1..]);
      ReadEntryThen(es[0], rest, es[1..]);
      assert [es[0]] + es[1..] == es;
    }
  }

  /** One entry's tokens are read as that entry, and reading goes on after them. */
  lemma ReadEntryThen(e: Entry, rest: seq<Token>, es: seq<Entry>)
    requires ReadValue(ValueTokens(e.value) + rest) == Some((e.value, rest))
    requires ReadEntries(rest) == Some(es)
    ensures ReadEntries([Tag("key")] + ([Chars(e.key)] + ([Tag("/key")] + (ValueTokens(e.value) + rest))))
         == Some([e] + es)
  {
    var ts := [Tag("key")] + ([Chars(e.key)] + ([Tag("/key")] + (ValueTokens(e.value) + rest)));
    assert ts[0] == Tag("key") && ts[1] == Chars(e.key) && ts[2] == Tag("/key");
    assert ts[3..] == ValueTokens(e.value) + rest;
  }

  lemma StringTokensWellFormed(s: string)
    requires Plain(s)
    ensures WellFormed(StringTokens(s))
  {
    var close: seq<Token> := [Tag("/string")];
    WellFormedCons(Tag("/string"), []);
    assert [Tag("/string")] + [] == close;
    if s == [] {
      WellFormedCons(Tag("string"), close);
      assert StringTokens(s) == [Tag("string")] + close;
    } else {
      WellFormedCons(Chars(s), close);
      WellFormedCons(Tag("string"), [Chars(s)] + close);
    }
  }

  lemma {:induction false} StringsTokensWellFormed(items: seq<string>)
    requires AllPlain(items)
    ensures WellFormed(StringsTokens(items))
    ensures StringsTokens(items) == [] || StringsTokens(items)[|StringsTokens(items)| - 1].Tag?
  {
    if items != [] {
      StringTokensWellFormed(items[0]);
      assert AllPlain(items[1..]) by {
        forall i | 0 <= i < |items[1..]| ensures Plain(items[1..][i]) { assert items[1..][i] == items[i + 1]; }
      }
      StringsTokensWellFormed(items[1..]);
      var first := StringTokens(items[0]);
      assert first[|first| - 1] == Tag("/string");
      var more := StringsTokens(items[1..]);
      WellFormedConcat(first, more);
      var all := first + more;
      if more == [] {
        assert all[|all| - 1] == first[|first| - 1];
      } else {
        assert all[|all| - 1] == more[|more| - 1];
      }
    }
  }

  lemma ValueTokensWellFormed(v: Value)
    requires PlainValue(v)
    ensures WellFormed(ValueTokens(v)) && ValueTokens(v) != [] && ValueTokens(v)[|ValueTokens(v)| - 1].Tag?
  {
    match v
    case Str(s) =>
      StringTokensWellFormed(s);
    case Strings(items) =>
      StringsTokensWellFormed(items);
      WellFormedCons(Tag("/array"), []);
      assert [Tag("/array")] + [] == [Tag("/array")];
      WellFormedConcat(StringsTokens(items), [Tag("/array")]);
      WellFormedCons(Tag("array"), StringsTokens(items) + [Tag("/array")]);
    case Yes =>
      WellFormedCons(Tag("true/"), []);
      assert [Tag("true/")] + [] == ValueTokens(v);
  }

  lemma EntryTokensWellFormed(e: Entry, rest: seq<Token>)
    requires e.key != [] && Plain(e.key) && PlainValue(e.value) && WellFormed(rest)
    ensures WellFormed([Tag("key")] + ([Chars(e.key)] + ([Tag("/key")] + (ValueTokens(e.value) + rest))))
  {
    var value := ValueTokens(e.value);
    ValueTokensWellFormed(e.value);
    WellFormedConcat(value, rest);
    var after := value + rest;
    assert after[0] == value[0];
    WellFormedCons(Tag("/key"), after);
    WellFormedCons(Chars(e.key), [Tag("/key")] + after);
    WellFormedCons(Tag("key"), [Chars(e.key)] + ([Tag("/key")] + after));
  }

  lemma {:induction false} EntriesTokensWellFormed(es: seq<Entry>)
    requires PlainEntries(es)
    ensures WellFormed(EntriesTokens(es))
  {
    if es != [] {
      EntriesTokensWellFormed(es[1..]);
      EntryTokensWellFormed(es[0], EntriesTokens(es[1..]));
    }
  }

  // ---------------------------------------------------------------------------------------------
  // The dictionary's tokens render as getPList's text
  // ---------------------------------------------------------------------------------------------

  lemma KeyTags()
    ensures TokenText(Tag("key")) == "<key>" && TokenText(Tag("/key")) == "</key>"
  {
  }

  lemma StringTags()
    ensures TokenText(Tag("string")) == "<string>" && TokenText(Tag("/string")) == "</string>"
  {
  }

  lemma ArrayTags()
    ensures TokenText(Tag("array")) == "<array>" && TokenText(Tag("/array")) == "</array>"
  {
  }

  lemma TrueTag()
    ensures TokenText(Tag("true/")) == "<true/>"
  {
  }

  lemma RenderStringTokens(s: string)
    ensures Render(StringTokens(s)) == "<string>" + s + "</string>"
  {
    StringTags();
    RenderCons(Tag("/string"), []);
    assert [Tag("/string")] + [] == [Tag("/string")];
    if s == [] {
      assert StringTokens(s) == [Tag("string")] + [Tag("/string")];
      RenderCons(Tag("string"), [Tag("/string")]);
    } else {
      RenderCons(Chars(s), [Tag("/string")]);
      RenderCons(Tag("string"), [Chars(s)] + [Tag("/string")]);
    }
  }

  lemma {:induction false} RenderStringsTokens(items: seq<string>)
    ensures Render(StringsTokens(items)) == StringElements(items)
  {
    if items != [] {
      RenderConcat(StringTokens(items[0]), StringsTokens(items[1..]));
      RenderStringTokens(items[0]);
      RenderStringsTokens(items[1..]);
    }
  }

  /** The text of a value. */
  function ValueText(v: Value): string
  {
    match v
    case Str(s) => "<string>" + s + "</string>"
    case Strings(items) => "<array>" + StringElements(items) + "</array>"
    case Yes => "<true/>"
  }

  lemma RenderValue(v: Value)
    ensures Render(ValueTokens(v)) == ValueText(v)
  {
    match v
    case Str(s) => RenderStringTokens(s);
    case Strings(items) =>
      var inner := StringsTokens(items);
      ArrayTags();
      RenderCons(Tag("/array"), []);
      assert [Tag("/array")] + [] == [Tag("/array")];
      RenderConcat(inner, [Tag("/array")]);
      RenderCons(Tag("array"), inner + [Tag("/array")]);
      RenderStringsTokens(items);
    case Yes =>
      TrueTag();
      RenderCons(Tag("true/"), []);
      assert [Tag("true/")] + [] == ValueTokens(v);
  }

  lemma RenderEntry(e: Entry, rest: seq<Entry>)
    ensures Render(EntriesTokens([e] + rest))
         == "<key>" + e.key + "</key>" + ValueText(e.value) + Render(EntriesTokens(rest))
  {
    var es := [e] + rest;
    assert es[0] == e && es[1..] == rest;
    var after := ValueTokens(e.value) + EntriesTokens(rest);
    RenderConcat(ValueTokens(e.value), EntriesTokens(rest));
    RenderValue(e.value);
    RenderCons(Tag("/key"), after);
    RenderCons(Chars(e.key), [Tag("/key")] + after);
    RenderCons(Tag("key"), [Chars(e.key)] + ([Tag("/key")] + after));
    KeyTags();
  }

  /** Gluing a literal opening back together around a value. */
  lemma Glue(a: string, b: string, c: string, d: string, open: string, x: string, y: string, r: string)
    requires a + b + c + d == open
    ensures a + b + c + (d + x + y) + r == open + x + y + r
  {
  }

  lemma Glue5(a: string, b: string, c: string, d: string, e: string, open: string,
              x: string, y: string, z: string, w: string, r: string)
    requires a + b + c + d + e == open
    ensures a + b + c + (d + (e + x + y + z) + w) + r == open + x + y + z + w + r
  {
  }

  lemma LabelOpen()
    ensures "<key>" + "Label" + "</key>" + "<string>" == "<key>Label</key><string>"
  {
  }

  lemma ProgramOpen()
    ensures "<key>" + "Program" + "</key>" + "<string>" == "<key>Program</key><string>"
  {
  }

  lemma ProgramArgumentsOpen()
    ensures "<key>" + "ProgramArguments" + "</key>" + "<array>" + "<string>" == "<key>ProgramArguments</key><array><string>"
  {
  }

  lemma RunAtLoadText()
    ensures "<key>" + "RunAtLoad" + "</key>" + "<true/>" == "<key>RunAtLoad</key><true/>"
  {
  }

  lemma KeepAliveText()
    ensures "<key>" + "KeepAlive" + "</key>" + "<true/>" == "<key>KeepAlive</key><true/>"
  {
  }

  lemma RenderLabel(labelText: string, rest: seq<Entry>)
    ensures Render(EntriesTokens([Entry("Label", Str(labelText))] + rest)) == LabelPart(labelText) + Render(EntriesTokens(rest))
  {
    RenderEntry(Entry("Label", Str(labelText)), rest);
    LabelOpen();
    Glue("<key>", "Label", "</key>", "<string>", "<key>Label</key><string>", labelText, "</string>", Render(EntriesTokens(rest)));
  }

  lemma RenderProgram(exec: string, args: Option<seq<string>>, rest: seq<Entry>)
    ensures Render(EntriesTokens([ProgramEntry(exec, args)] + rest)) == ProgramPart(exec, args) + Render(EntriesTokens(rest))
  {
    var r := Render(EntriesTokens(rest));
    if args.None? {
      RenderEntry(Entry("Program", Str(exec)), rest);
      ProgramOpen();
      Glue("<key>", "Program", "</key>", "<string>", "<key>Program</key><string>", exec, "</string>", r);
    } else {
      var all := [exec] + args.value;
      assert all[0] == exec && all[1..] == args.value;
      var inner := StringElements(args.value);
      assert StringElements(all) == "<string>" + exec + "</string>" + inner;
      RenderEntry(Entry("ProgramArguments", Strings(all)), rest);
      ProgramArgumentsOpen();
      Glue5("<key>", "ProgramArguments", "</key>", "<array>", "<string>", "<key>ProgramArguments</key><array><string>",
            exec, "</string>", inner, "</array>", r);
    }
  }

  lemma RenderFlags(runAtLoad: bool, keepAlive: bool)
    ensures Render(EntriesTokens(FlagEntries(runAtLoad, keepAlive))) == RunAtLoadPart(runAtLoad) + KeepAlivePart(keepAlive)
  {
    var keep := if keepAlive then [Entry("KeepAlive", Yes)] else [];
    assert Render(EntriesTokens(keep)) == KeepAlivePart(keepAlive) by {
      if keepAlive {
        RenderEntry(Entry("KeepAlive", Yes), []);
        assert [Entry("KeepAlive", Yes)] + [] == keep;
        KeepAliveText();
      }
    }
    if runAtLoad {
      RenderEntry(Entry("RunAtLoad", Yes), keep);
      RunAtLoadText();
    } else {
      assert FlagEntries(runAtLoad, keepAlive) == keep;
    }
  }

  /** The dictionary's tokens render as the middle of `getPList`'s text. */
  lemma RenderEntries(labelText: string, runAtLoad: bool, keepAlive: bool, exec: string,
                      args: Option<seq<string>>)
    ensures Render(EntriesTokens(Entries(labelText, runAtLoad, keepAlive, exec, args)))
         == LabelPart(labelText) + (ProgramPart(exec, args) + (RunAtLoadPart(runAtLoad) + KeepAlivePart(keepAlive)))
  {
    var flags := FlagEntries(runAtLoad, keepAlive);
    RenderFlags(runAtLoad, keepAlive);
    RenderProgram(exec, args, flags);
    RenderLabel(labelText, [ProgramEntry(exec, args)] + flags);
  }

  lemma Associate6(h: string, a: string, b: string, c: string, d: string, f: string)
    ensures h + a + b + c + d + f == h + (a + (b + (c + d))) + f
  {
  }

  /** `getPList`'s text is the opening, the dictionary's tokens rendered, and the closing. */
  lemma GetPListRenders(labelText: string, runAtLoad: bool, keepAlive: bool, exec: string,
                        args: Option<seq<string>>)
    ensures GetPList(labelText, runAtLoad, keepAlive, exec, args)
         == Header + Render(EntriesTokens(Entries(labelText, runAtLoad, keepAlive, exec, args))) + Footer
  {
    Associate6(Header, LabelPart(labelText), ProgramPart(exec, args), RunAtLoadPart(runAtLoad), KeepAlivePart(keepAlive), Footer);
    RenderEntries(labelText, runAtLoad, keepAlive, exec, args);
  }

  // ---------------------------------------------------------------------------------------------
  // Reading undoes getPList
  // ---------------------------------------------------------------------------------------------

  lemma PlainEntriesCons(e: Entry, rest: seq<Entry>)
    requires e.key != [] && Plain(e.key) && PlainValue(e.value) && PlainEntries(rest)
    ensures PlainEntries([e] + rest)
  {
    assert ([e] + rest)[0] == e && ([e] + rest)[1..] == rest;
  }

  /** On plain inputs the entries are plain. */
  lemma EntriesPlain(labelText: string, runAtLoad: bool, keepAlive: bool, exec: string,
                     args: Option<seq<string>>)
    requires Plain(labelText) && Plain(exec) && (args.Some? ==> AllPlain(args.value))
    ensures PlainEntries(Entries(labelText, runAtLoad, keepAlive, exec, args))
  {
    var keep := if keepAlive then [Entry("KeepAlive", Yes)] else [];
    assert PlainEntries(keep) by {
      if keepAlive { PlainEntriesCons(Entry("KeepAlive", Yes), []); assert [Entry("KeepAlive", Yes)] + [] == keep; }
    }
    assert PlainEntries(FlagEntries(runAtLoad, keepAlive)) by {
      if runAtLoad { PlainEntriesCons(Entry("RunAtLoad", Yes), keep); } else { assert FlagEntries(runAtLoad, keepAlive) == keep; }
    }
    var program := ProgramEntry(exec, args);
    assert PlainValue(program.value) by {
      if args.Some? {
        var all := [exec] + args.value;
        forall i | 0 <= i < |all| ensures Plain(all[i]) {
          if i > 0 { assert all[i] == args.value[i - 1]; }
        }
      }
    }
    PlainEntriesCons(program, FlagEntries(runAtLoad, keepAlive));
    PlainEntriesCons(Entry("Label", Str(labelText)), [program] + FlagEntries(runAtLoad, keepAlive));
  }

  /** With plain label, executable and arguments, the text reads back as exactly the entries:
      `Label`, then `Program` with the executable when there are no arguments or
      `ProgramArguments` with the executable followed by each argument in order when there are,
      then `RunAtLoad` when asked for and `KeepAlive` when asked for. */
  lemma GetPListRoundTrip(labelText: string, runAtLoad: bool, keepAlive: bool, exec: string,
                          args: Option<seq<string>>)
    requires Plain(labelText) && Plain(exec) && (args.Some? ==> AllPlain(args.value))
    ensures ReadPList(GetPList(labelText, runAtLoad, keepAlive, exec, args))
         == Some(Entries(labelText, runAtLoad, keepAlive, exec, args))
  {
    var es := Entries(labelText, runAtLoad, keepAlive, exec, args);
    var ts := EntriesTokens(es);
    var body := Render(ts);
    GetPListRenders(labelText, runAtLoad, keepAlive, exec, args);
    var text := Header + body + Footer;
    assert text[..|Header|] == Header;
    assert text[|text| - |Footer|..] == Footer;
    assert text[|Header|..|text| - |Footer|] == body;
    EntriesPlain(labelText, runAtLoad, keepAlive, exec, args);
    EntriesTokensWellFormed(es);
    ScanRender(ts);
    ReadEntriesOf(es);
  }

  // ---------------------------------------------------------------------------------------------
  // What launchd finds in the property list
  // ---------------------------------------------------------------------------------------------

  lemma FlagEntriesSay(runAtLoad: bool, keepAlive: bool)
    ensures var fs := FlagEntries(runAtLoad, keepAlive);
      && DistinctKeys(fs)
      && !HasKey(fs, "Label") && !HasKey(fs, "Program") && !HasKey(fs, "ProgramArguments")
      && (HasKey(fs, "RunAtLoad") <==> runAtLoad) && (HasKey(fs, "KeepAlive") <==> keepAlive)
      && (runAtLoad ==> Lookup(fs, "RunAtLoad") == Some(Yes))
      && (keepAlive ==> Lookup(fs, "KeepAlive") == Some(Yes))
  {
    var keep := if keepAlive then [Entry("KeepAlive", Yes)] else [];
    if keepAlive {
      EntriesCons(Entry("KeepAlive", Yes), []);
      assert [Entry("KeepAlive", Yes)] + [] == keep;
    }
    if runAtLoad {
      EntriesCons(Entry("RunAtLoad", Yes), keep);
      assert "RunAtLoad"[0] != "KeepAlive"[0];
    } else {
      assert FlagEntries(runAtLoad, keepAlive) == keep;
    }
  }

  /** Each key occurs at most once; `Program` occurs exactly when there are no arguments,
      `ProgramArguments` exactly when there are, and each flag exactly when it is asked for; the
      label, the program and the flags carry the values they were given. */
  lemma EntriesSay(labelText: string, runAtLoad: bool, keepAlive: bool, exec: string,
                   args: Option<seq<string>>)
    ensures var es := Entries(labelText, runAtLoad, keepAlive, exec, args);
      && DistinctKeys(es)
      && Lookup(es, "Label") == Some(Str(labelText))
      && (HasKey(es, "Program") <==> args.None?)
      && (HasKey(es, "ProgramArguments") <==> args.Some?)
      && (args.None? ==> Lookup(es, "Program") == Some(Str(exec)))
      && (args.Some? ==> Lookup(es, "ProgramArguments") == Some(Strings([exec] + args.value)))
      && (HasKey(es, "RunAtLoad") <==> runAtLoad)
      && (HasKey(es, "KeepAlive") <==> keepAlive)
      && (runAtLoad ==> Lookup(es, "RunAtLoad") == Some(Yes))
      && (keepAlive ==> Lookup(es, "KeepAlive") == Some(Yes))
  {
    var fs := FlagEntries(runAtLoad, keepAlive);
    var program := ProgramEntry(exec, args);
    FlagEntriesSay(runAtLoad, keepAlive);
    EntriesCons(program, fs);
    EntriesCons(Entry("Label", Str(labelText)), [program] + fs);
    assert |"Program"| != |"Label"| && |"Program"| != |"ProgramArguments"| && |"Label"| != |"ProgramArguments"|;
    assert |"RunAtLoad"| != |"Label"| && |"RunAtLoad"| != |"Program"| && |"RunAtLoad"| != |"ProgramArguments"|;
    assert |"KeepAlive"| != |"Label"| && |"KeepAlive"| != |"Program"| && |"KeepAlive"| != |"ProgramArguments"|;
  }

  /** On plain inputs, the reader finds `Program` exactly when `getPList` was given no arguments,
      the executable followed by the arguments in order when it was, and the flags exactly when
      they were asked for. */
  lemma LaunchdReads(labelText: string, runAtLoad: bool, keepAlive: bool, exec: string,
                     args: Option<seq<string>>)
    requires Plain(labelText) && Plain(exec) && (args.Some? ==> AllPlain(args.value))
    ensures ReadPList(GetPList(labelText, runAtLoad, keepAlive, exec, args)).Some?
    ensures var es := ReadPList(GetPList(labelText, runAtLoad, keepAlive, exec, args)).value;
      && DistinctKeys(es)
      && Lookup(es, "Label") == Some(Str(labelText))
      && (HasKey(es, "Program") <==> args.None?)
      && (args.None? ==> Lookup(es, "Program") == Some(Str(exec)))
      && (args.Some? ==> Lookup(es, "ProgramArguments") == Some(Strings([exec] + args.value)))
      && (HasKey(es, "RunAtLoad") <==> runAtLoad)
      && (HasKey(es, "KeepAlive") <==> keepAlive)
  {
    GetPListRoundTrip(labelText, runAtLoad, keepAlive, exec, args);
    EntriesSay(labelText, runAtLoad, keepAlive, exec, args);
  }

  lemma ContainsPart(h: string, a: string, m: string, b: string, p: string, r: string, k: string, f: string)
    ensures Contains(h + (a + m + b) + p + r + k + f, m)
  {
    var t := h + (a + m + b) + p + r + k + f;
    assert t == (h + a) + m + (b + p + r + k + f);
    assert t[|h + a|..|h + a| + |m|] == m;
    assert OccursAt(t, m, |h + a|);
  }

  /** The source does not escape its strings: a label that itself spells a `Program` key puts
      one into the text even though arguments are given. */
  lemma GetPListUnescaped()
    ensures Contains(GetPList("<key>Program</key>", false, false, "p", Some([])), "<key>Program</key>")
  {
    ContainsPart(Header, "<key>Label</key><string>", "<key>Program</key>", "</string>",
                 ProgramPart("p", Some([])), RunAtLoadPart(false), KeepAlivePart(false), Footer);
  }

  lemma ContainsMiddle(x: string, m: string, y: string)
    ensures Contains(x + m + y, m)
  {
    assert (x + m + y)[|x|..|x| + |m|] == m;
    assert OccursAt(x + m + y, m, |x|);
  }

  lemma ProgramKeyText(exec: string)
    ensures ProgramPart(exec, None) == "<key>Program</key>" + ("<string>" + exec + "</string>")
  {
    assert "<key>Program</key><string>" == "<key>Program</key>" + "<string>";
  }

  lemma ProgramArgumentsKeyText(exec: string, args: seq<string>)
    ensures ProgramPart(exec, Some(args))
         == "<key>ProgramArguments</key>" + ("<array><string>" + exec + "</string>" + StringElements(args) + "</array>")
  {
    assert "<key>ProgramArguments</key><array><string>" == "<key>ProgramArguments</key>" + "<array><string>";
  }

  lemma InThird(h: string, l: string, m: string, y: string, r: string, k: string, f: string)
    ensures Contains(h + l + (m + y) + r + k + f, m)
  {
    assert h + l + (m + y) + r + k + f == (h + l) + m + (y + r + k + f);
    ContainsMiddle(h + l, m, y + r + k + f);
  }

  lemma InFourth(h: string, l: string, p: string, m: string, k: string, f: string)
    ensures Contains(h + l + p + m + k + f, m)
  {
    assert h + l + p + m + k + f == (h + l + p) + m + (k + f);
    ContainsMiddle(h + l + p, m, k + f);
  }

  /** Whatever the label, the text carries the `Program` key when there are no arguments, the
      `ProgramArguments` key when there are, and each flag that is asked for, set to `<true/>`. */
  lemma GetPListKeys(labelText: string, runAtLoad: bool, keepAlive: bool, exec: string,
                     args: Option<seq<string>>)
    ensures var text := GetPList(labelText, runAtLoad, keepAlive, exec, args);
      && (args.None? ==> Contains(text, "<key>Program</key>"))
      && (args.Some? ==> Contains(text, "<key>ProgramArguments</key>"))
      && (runAtLoad ==> Contains(text, "<key>RunAtLoad</key><true/>"))
      && (keepAlive ==> Contains(text, "<key>KeepAlive</key><true/>"))
  {
    var l := LabelPart(labelText);
    var p := ProgramPart(exec, args);
    var r := RunAtLoadPart(runAtLoad);
    var k := KeepAlivePart(keepAlive);
    if args.None? {
      ProgramKeyText(exec);
      InThird(Header, l, "<key>Program</key>", "<string>" + exec + "</string>", r, k, Footer);
    } else {
      ProgramArgumentsKeyText(exec, args.value);
      InThird(Header, l, "<key>ProgramArguments</key>",
              "<array><string>" + exec + "</string>" + StringElements(args.value) + "</array>", r, k, Footer);
    }
    InFourth(Header, l, p, r, k, Footer);
    ContainsMiddle(Header + l + p + r, k, Footer);
  }

  // ---------------------------------------------------------------------------------------------
  // createLaunchDPList's two agents
  // ---------------------------------------------------------------------------------------------

  const ProviderArgs: seq<string> := ["-vv", "server", "run", "--user"]

  lemma AgentKeys(labelText: string, exec: string)
    ensures var text := GetPList(labelText, true, true, exec, Some(ProviderArgs));
      && Contains(text, "<key>ProgramArguments</key>")
      && Contains(text, "<key>RunAtLoad</key><true/>") && Contains(text, "<key>KeepAlive</key><true/>")
  {
    GetPListKeys(labelText, true, true, exec, Some(ProviderArgs));
  }

  /** The provider agent and the interface agent that `createLaunchDPList` prepares. */
  function LaunchAgents(exec: string): (agents: (string, string))
    ensures Contains(agents.0, "<key>ProgramArguments</key>") && Contains(agents.1, "<key>ProgramArguments</key>")
    ensures Contains(agents.0, "<key>RunAtLoad</key><true/>") && Contains(agents.1, "<key>RunAtLoad</key><true/>")
    ensures Contains(agents.0, "<key>KeepAlive</key><true/>") && Contains(agents.1, "<key>KeepAlive</key><true/>")
  {
    AgentKeys("network.golem.gu-provider", exec);
    AgentKeys("network.golem.gu-provider-ui", exec);
    (GetPList("network.golem.gu-provider", true, true, exec, Some(ProviderArgs)),
     GetPList("network.golem.gu-provider-ui", true, true, exec, Some(ProviderArgs)))
  }

  /** Both agents run the bundled `gu-provider` at `exec` with `-vv server run --user`, at load
      and kept alive; only their labels tell them apart. */
  lemma LaunchAgentsRead(exec: string)
    requires Plain(exec)
    ensures ReadPList(LaunchAgents(exec).0) == Some(Entries("network.golem.gu-provider", true, true, exec, Some(ProviderArgs)))
    ensures ReadPList(LaunchAgents(exec).1) == Some(Entries("network.golem.gu-provider-ui", true, true, exec, Some(ProviderArgs)))
  {
    assert AllPlain(ProviderArgs);
    assert Plain("network.golem.gu-provider") && Plain("network.golem.gu-provider-ui");
    GetPListRoundTrip("network.golem.gu-provider", true, true, exec, Some(ProviderArgs));
    GetPListRoundTrip("network.golem.gu-provider-ui", true, true, exec, Some(ProviderArgs));
  }
}
