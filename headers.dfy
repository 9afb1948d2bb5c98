/**
 * The header table the parser builds: a dictionary keyed by the header name
 * exactly as received, where a repeated name gets `", "` and the new value
 * appended to what it already holds.
 */
module Headers {
  import opened Grammar

  /** Records one header line in the table. */
  function MergeHeader(table: map<string, string>, h: Header): (r: map<string, string>)
    ensures r.Keys == table.Keys + {h.name}
    ensures h.name in table ==> r[h.name] == table[h.name] + ", " + h.value
    ensures h.name !in table ==> r[h.name] == h.value
    ensures forall k :: k in table && k != h.name ==> r[k] == table[k]
  {
    if h.name in table then table[h.name := table[h.name] + ", " + h.value]
    else table[h.name := h.value]
  }

  /** The table after recording `hs` in order, starting from an empty one. */
  function HeadersOf(hs: seq<Header>): map<string, string> {
    if hs == [] then map[] else MergeHeader(HeadersOf(hs[..|hs| - 1]), hs[|hs| - 1])
  }

  /** The values sent under `name`, in the order they arrived. */
  function ValuesNamed(hs: seq<Header>, name: string): seq<string> {
    if hs == [] then []
    else ValuesNamed(hs[..|hs| - 1], name) + (if hs[|hs| - 1].name == name then [hs[|hs| - 1].value] else [])
  }

  /** `vs` joined with `", "` between neighbours. */
  function JoinComma(vs: seq<string>): string
    requires |vs| > 0
  {
    if |vs| == 1 then vs[0] else JoinComma(vs[..|vs| - 1]) + ", " + vs[|vs| - 1]
  }

  /**
   * A name is in the table exactly when some line carried it, and its entry
   * is every value sent under it, in arrival order, joined with `", "`.
   */
  lemma {:induction false} HeadersOfJoinsRepeats(hs: seq<Header>, name: string)
    ensures name in HeadersOf(hs) <==> |ValuesNamed(hs, name)| > 0
    ensures name in HeadersOf(hs) ==> HeadersOf(hs)[name] == JoinComma(ValuesNamed(hs, name))
  {
    if hs != [] {
      var init, last := hs[..|hs| - 1], hs[|hs| - 1];
      HeadersOfJoinsRepeats(init, name);
      var vs := ValuesNamed(hs, name);
      if last.name == name {
        assert vs == ValuesNamed(init, name) + [last.value];
        if |ValuesNamed(init, name)| > 0 {
          assert vs[..|vs| - 1] == ValuesNamed(init, name);
          assert JoinComma(vs) == JoinComma(ValuesNamed(init, name)) + ", " + last.value;
        }
      } else {
        assert vs == ValuesNamed(init, name);
      }
    }
  }
}
