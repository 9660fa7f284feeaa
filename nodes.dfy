/** The records the provider reports about hubs, and the small decoders applied to its answers:
    `NodeInfo.nodeId`, `dataToBool`, and the reading of a hub's `/node_id/` reply. */
module Nodes {
  import opened Wrappers
  import opened Text

  /** A hub as `/lan/list` describes it (`NodeInfo`): its host name, its address, and a
      description whose first line carries `key=value`. */
  datatype NodeInfo = NodeInfo(name: string, address: string, description: string)

  /** A hub as `/nodes?saved` describes it (`SavedNodeInfo`): the id is a field of its own. */
  datatype SavedNodeInfo = SavedNodeInfo(name: string, address: string, nodeId: string)

  // ---------------------------------------------------------------------------------------------
  // nodeId()
  // ---------------------------------------------------------------------------------------------

  /** The decision `nodeId()` takes on a line: the second `=`-separated piece, or nothing when
      there are fewer than two pieces. */
  function LineId(line: string): (id: Option<string>)
    requires '\n' !in line
    ensures id.Some? ==> id.value != [] && '=' !in id.value && '\n' !in id.value
  {
    var parts := Split(line, '=');
    if |parts| <= 1 then None
    else
      SplitAvoids(line, '=', '\n');
      Some(parts[1])
  }

  /** `NodeInfo.nodeId()`: the loop over the non-empty lines of the description returns on its
      first iteration, so only the first non-empty line decides; no line at all gives nothing. */
  function NodeId(description: string): (id: Option<string>)
    ensures id.Some? ==> id.value != [] && '=' !in id.value && '\n' !in id.value
  {
    var lines := Split(description, '\n');
    if lines == [] then None else LineId(lines[0])
  }

  /** Only the first non-empty line counts: blank lines before it and everything after it are
      ignored. */
  lemma NodeIdFirstLine(p: string, line: string, q: string)
    requires AllChar(p, '\n') && line != [] && '\n' !in line && (q == [] || q[0] == '\n')
    ensures NodeId(p + line + q) == LineId(line)
  {
    SplitOfOne(p, line, q, '\n');
    assert p + line + q == p + (line + q);
  }

  /** A description made only of line breaks, the empty one among them, has no id. */
  lemma NodeIdOfBlank(description: string)
    requires AllChar(description, '\n')
    ensures NodeId(description) == None
  {
    SplitEmpty(description, '\n');
  }

  /** A line `key=value`, possibly with runs of `=` around and between the pieces, yields the
      value. */
  lemma LineIdOfPair(p: string, key: string, m: string, value: string, r: string)
    requires AllChar(p, '=') && AllChar(m, '=') && m != []
    requires key != [] && '=' !in key && value != [] && '=' !in value && (r == [] || r[0] == '=')
    requires '\n' !in p + key + m + value + r
    ensures LineId(p + key + m + value + r) == Some(value)
  {
    SplitOfTwo(p, key, m, value, r, '=');
  }

  /** Conversely, a line yields a value only in that shape; what follows the value is ignored. */
  lemma LineIdShape(line: string) returns (p: string, key: string, m: string, r: string)
    requires '\n' !in line && LineId(line).Some?
    ensures AllChar(p, '=') && AllChar(m, '=') && m != [] && key != [] && '=' !in key
    ensures line == p + key + m + LineId(line).value + r && (r == [] || r[0] == '=')
  {
    var parts := Split(line, '=');
    p, m, r := SplitFirstTwo(line, '=');
    key := parts[0];
  }

  /** A line with at most one piece yields nothing: no `=` at all, or only `=` around the key. */
  lemma LineIdOfSingle(p: string, key: string, r: string)
    requires AllChar(p, '=') && '=' !in key && AllChar(r, '=') && '\n' !in p + key + r
    ensures LineId(p + key + r) == None
  {
    if key == [] {
      assert p + key + r == p + r;
      assert AllChar(p + r, '=') by {
        forall k | 0 <= k < |p + r| ensures (p + r)[k] == '=' {
          if k < |p| { assert (p + r)[k] == p[k]; } else { assert (p + r)[k] == r[k - |p|]; }
        }
      }
      SplitEmpty(p + r, '=');
    } else {
      SplitEmpty(r, '=');
      if r == [] {
        assert p + key + r == p + key + [];
        SplitToken(key, [], '=');
      } else {
        SplitToken(key, r, '=');
      }
      SplitSkipsSeparators(p, key + r, '=');
      assert p + key + r == p + (key + r);
    }
  }

  /** The description that `reloadHubList` synthesises for a saved hub gives its id back exactly
      when the id is non-empty and free of `=` and of line breaks. */
  lemma NodeIdOfSynthesized(id: string)
    ensures NodeId("node_id=" + id) == Some(id) <==> id != [] && '=' !in id && '\n' !in id
  {
    if id != [] && '=' !in id && '\n' !in id {
      var line := "node_id=" + id;
      assert line == [] + "node_id" + "=" + id + [];
      assert '\n' !in line by {
        forall k | 0 <= k < |line| ensures line[k] != '\n' {
          if k >= 8 { assert line[k] == id[k - 8]; }
        }
      }
      LineIdOfPair([], "node_id", "=", id, []);
      NodeIdFirstLine([], line, []);
      assert [] + line + [] == line;
    }
  }

  /** A saved id that contains `=` comes back cut short. */
  lemma NodeIdOfSynthesizedWithEquals()
    ensures NodeId("node_id=" + "a=b") == Some("a")
  {
    var line := "node_id=" + "a=b";
    assert line == [] + "node_id" + "=" + "a" + "=b";
    LineIdOfPair([], "node_id", "=", "a", "=b");
    NodeIdFirstLine([], line, []);
    assert [] + line + [] == line;
  }

  // ---------------------------------------------------------------------------------------------
  // dataToBool
  // ---------------------------------------------------------------------------------------------

  /** `dataToBool`: the optional chain is compared with `"true"`, so the result is never absent;
      it holds exactly when the text, trimmed of whitespace and lower-cased, is `true`. */
  function DataToBool(text: string): (r: Option<bool>)
    ensures r.Some?
  {
    Some(Lower(Trim(text)) == "true")
  }

  /** The word `true` in any mixture of cases. */
  predicate TrueIgnoringCase(w: string)
  {
    && |w| == 4
    && (w[0] == 't' || w[0] == 'T') && (w[1] == 'r' || w[1] == 'R')
    && (w[2] == 'u' || w[2] == 'U') && (w[3] == 'e' || w[3] == 'E')
  }

  /** The decoded value is true exactly when the trimmed text spells `true` in some mixture of
      cases. */
  lemma DataToBoolTrue(text: string)
    ensures DataToBool(text) == Some(true) <==> TrueIgnoringCase(Trim(text))
  {
    var w := Trim(text);
    if |w| == 4 {
      assert Lower(w) == [AsciiLower(w[0]), AsciiLower(w[1]), AsciiLower(w[2]), AsciiLower(w[3])];
    }
  }

  /** A word with whitespace around it decodes as that word does. */
  lemma DataToBoolOfWord(p: string, w: string, q: string)
    requires AllWhitespace(p) && AllWhitespace(q)
    requires w == [] || (!IsWhitespace(w[0]) && !IsWhitespace(w[|w| - 1]))
    ensures DataToBool(p + w + q) == Some(TrueIgnoringCase(w))
  {
    TrimAround(p, w, q);
    DataToBoolTrue(p + w + q);
  }

  // ---------------------------------------------------------------------------------------------
  // The hub's /node_id/ reply
  // ---------------------------------------------------------------------------------------------

  /** `addEnteredHub`'s reading of the reply: it must split on spaces into exactly two tokens,
      the node id and the host name. */
  function HubTokens(text: string): (r: Option<(string, string)>)
    ensures r.Some? ==> r.value.0 != [] && ' ' !in r.value.0 && r.value.1 != [] && ' ' !in r.value.1
  {
    var tokens := Split(text, ' ');
    if |tokens| == 2 then Some((tokens[0], tokens[1])) else None
  }

  /** Two space-free words with spaces before, between and after them are accepted as the id
      and the host name. */
  lemma HubTokensOfPair(p: string, id: string, m: string, host: string, r: string)
    requires AllChar(p, ' ') && AllChar(m, ' ') && m != [] && AllChar(r, ' ')
    requires id != [] && ' ' !in id && host != [] && ' ' !in host
    ensures HubTokens(p + id + m + host + r) == Some((id, host))
  {
    SplitEmpty(r, ' ');
    SplitOfTwo(p, id, m, host, r, ' ');
  }

  /** Conversely, an accepted reply has that shape. */
  lemma HubTokensShape(text: string) returns (p: string, m: string, r: string)
    requires HubTokens(text).Some?
    ensures AllChar(p, ' ') && AllChar(m, ' ') && m != [] && AllChar(r, ' ')
    ensures text == p + HubTokens(text).value.0 + m + HubTokens(text).value.1 + r
  {
    p, m, r := SplitFirstTwo(text, ' ');
    SplitEmpty(r, ' ');
  }

  /** A reply with a single word, the id without a host name, is refused. */
  lemma HubTokensOfSingle(p: string, id: string, r: string)
    requires AllChar(p, ' ') && AllChar(r, ' ') && id != [] && ' ' !in id
    ensures HubTokens(p + id + r) == None
  {
    SplitEmpty(r, ' ');
    if r == [] {
      SplitToken(id, [], ' ');
    } else {
      SplitToken(id, r, ' ');
    }
    SplitSkipsSeparators(p, id + r, ' ');
    assert p + id + r == p + (id + r);
  }
}
