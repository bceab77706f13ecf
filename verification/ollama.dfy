/**
 * The text handling of `backend/app/llm_ollama.py`: cutting the JSON object
 * out of a model reply, and the defaults applied to the decoded object.
 *
 * The HTTP request and `json.loads` are not part of this model: the decoded
 * object is a parameter, `None` when decoding raised.
 */
module Ollama {
  import opened Wrappers
  import opened Text
  import opened JsonValues

  /** Some `{` comes before some `}`. */
  predicate Braced(s: string) {
    exists i, j :: 0 <= i < j < |s| && s[i] == '{' && s[j] == '}'
  }

  /**
   * `_extract_json_block`: the text from the first `{` through the last `}`,
   * or `"{}"` when there is no such pair in order.
   */
  function ExtractJsonBlock(s: string): (r: string)
    ensures |r| >= 2 && r[0] == '{' && r[|r| - 1] == '}'
    ensures !Braced(s) ==> r == "{}"
    ensures Braced(s) ==> exists i :: 0 <= i <= |s| - |r| && r == s[i..i + |r|]
                                     && '{' !in s[..i] && '}' !in s[i + |r|..]
  {
    var start := Find(s, '{');
    var end := RFind(s, '}');
    if start == -1 || end == -1 || end <= start then
      "{}"
    else
      var r := s[start..end + 1];
      assert Braced(s) by {
        assert 0 <= start < end < |s| && s[start] == '{' && s[end] == '}';
      }
      assert s[start..start + |r|] == r;
      r
  }

  /** A block is its own block: extracting twice changes nothing. */
  lemma ExtractJsonBlockIdempotent(s: string)
    ensures ExtractJsonBlock(ExtractJsonBlock(s)) == ExtractJsonBlock(s)
  {
    var r := ExtractJsonBlock(s);
    assert Braced(r) by {
      assert 0 <= 0 < |r| - 1 < |r| && r[0] == '{' && r[|r| - 1] == '}';
    }
    var r2 := ExtractJsonBlock(r);
    var i :| 0 <= i <= |r| - |r2| && r2 == r[i..i + |r2|] && '{' !in r[..i] && '}' !in r[i + |r2|..];
    assert r2 == r[0..|r|];
  }

  /** An empty reply gives the empty object. */
  lemma EmptyReplyGivesEmptyObject()
    ensures ExtractJsonBlock("") == "{}"
  {
  }

  // ---------------------------------------------------------------------------
  // Defaults after decoding

  /** The object used when decoding failed or `events` is unusable. */
  const NoEvents: map<string, Json> := map["events" := JArray([])]

  /** The decoded object carries an `events` list and is kept. */
  predicate Usable(parsed: Option<map<string, Json>>) {
    parsed.Some? && "events" in parsed.value && parsed.value["events"].JArray?
  }

  /**
   * The tail of `normalize_with_ollama`: a failed decode or an object without
   * an `events` list becomes `{"events": []}`, and a missing `timezone` is
   * set to the requested zone. A present `timezone` is kept, whatever it
   * holds.
   */
  function PostProcess(parsed: Option<map<string, Json>>, timezone: string): (r: map<string, Json>)
    ensures "events" in r && r["events"].JArray?
    ensures "timezone" in r
    ensures Usable(parsed) ==>
      && r.Keys == parsed.value.Keys + {"timezone"}
      && (forall k :: k in parsed.value ==> r[k] == parsed.value[k])
      && ("timezone" !in parsed.value ==> r["timezone"] == JString(timezone))
    ensures !Usable(parsed) ==>
      r.Keys == {"events", "timezone"} && r["events"] == JArray([]) && r["timezone"] == JString(timezone)
  {
    var kept := if Usable(parsed) then parsed.value else NoEvents;
    if "timezone" in kept then kept else kept["timezone" := JString(timezone)]
  }

  /** Post-processing its own output changes nothing, whatever zone is asked for. */
  lemma PostProcessIdempotent(parsed: Option<map<string, Json>>, timezone: string, timezone2: string)
    ensures PostProcess(Some(PostProcess(parsed, timezone)), timezone2) == PostProcess(parsed, timezone)
  {
    var r := PostProcess(parsed, timezone);
    assert Usable(Some(r));
    var r2 := PostProcess(Some(r), timezone2);
    assert r2.Keys == r.Keys;
  }
}
