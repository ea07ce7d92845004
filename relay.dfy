/**
 * The relay command of the first-generation web server, src/webserver.rs:
 * `GET /?relay=on` or `?relay=off` switches the relay; the answer reports its
 * state together with sensor readings, which this model leaves out.
 */
module Relay {
  import opened Wrappers
  import opened Rust

  const RelayKey: string := "relay"

  /**
   * The value of one `&`-separated segment when its key, the text before the
   * first '=', is exactly "relay"; a segment without '=' has no value.
   */
  function SegmentValue(segment: string): (r: Option<string>)
    ensures r.Some? ==> '=' in segment && segment[..IndexOf(segment, '=')] == RelayKey
    ensures r.Some? ==> r.value == segment[IndexOf(segment, '=') + 1..]
    ensures '=' !in segment ==> r.None?
  {
    if '=' !in segment then None
    else
      var i := IndexOf(segment, '=');
      if segment[..i] == RelayKey then Some(segment[i + 1..]) else None
  }

  /** `find_map`: the value of the first segment that has one. */
  function FindRelay(segments: seq<string>): (r: Option<string>)
    ensures r.None? <==> forall k :: 0 <= k < |segments| ==> SegmentValue(segments[k]).None?
  {
    if segments == [] then None
    else
      match SegmentValue(segments[0])
      case Some(v) => Some(v)
      case None =>
        var rest := FindRelay(segments[1..]);
        assert forall k :: 1 <= k < |segments| ==> segments[k] == segments[1..][k - 1];
        rest
  }

  /** `extract_relay_param`: nothing without a '?'; otherwise the first relay value of the query after it. */
  function ExtractRelayParam(uri: string): (r: Option<string>)
    ensures '?' !in uri ==> r.None?
  {
    if '?' !in uri then None
    else FindRelay(Split(uri[IndexOf(uri, '?') + 1..], '&'))
  }

  /** The first segment that carries a value decides; `k` is its position. */
  lemma {:induction false} FindRelayFirstMatch(segments: seq<string>) returns (k: nat)
    requires FindRelay(segments).Some?
    ensures k < |segments| && SegmentValue(segments[k]) == FindRelay(segments)
    ensures forall j :: 0 <= j < k ==> SegmentValue(segments[j]).None?
  {
    if SegmentValue(segments[0]).Some? {
      k := 0;
    } else {
      var k' := FindRelayFirstMatch(segments[1..]);
      k := k' + 1;
      forall j | 1 <= j < k ensures SegmentValue(segments[j]).None? {
        assert segments[j] == segments[1..][j - 1];
      }
    }
  }

  /** Only the text after the first '?' is looked at. */
  lemma OnlyQueryIsExamined(path: string, query: string)
    requires '?' !in path
    ensures ExtractRelayParam(path + "?" + query) == FindRelay(Split(query, '&'))
  {
    IndexOfAfterPrefix(path, '?', query);
    var uri := path + "?" + query;
    assert uri[|path| + 1..] == query;
  }

  /** A "relay=" segment yields everything after its first '=', which may be empty or hold more '='. */
  lemma RelaySegmentValue(value: string)
    ensures SegmentValue(RelayKey + "=" + value) == Some(value)
  {
    IndexOfAfterPrefix(RelayKey, '=', value);
    var segment := RelayKey + "=" + value;
    assert segment[..|RelayKey|] == RelayKey;
    assert segment[|RelayKey| + 1..] == value;
  }

  /** Keys are compared exactly: no case folding, no decoding. */
  lemma OtherKeysDoNotMatch(key: string, value: string)
    requires '=' !in key && key != RelayKey
    ensures SegmentValue(key + "=" + value).None?
  {
    IndexOfAfterPrefix(key, '=', value);
    var segment := key + "=" + value;
    assert segment[..|key|] == key;
  }

  /** A bare "relay" segment matches nothing and the search goes on. */
  lemma BareRelayIsSkipped(rest: seq<string>)
    ensures FindRelay([RelayKey] + rest) == FindRelay(rest)
  {
    assert '=' !in RelayKey;
    assert ([RelayKey] + rest)[1..] == rest;
  }

  /** The earliest relay segment wins over any later one. */
  lemma FirstRelayWins(before: seq<string>, value: string, after: seq<string>)
    requires forall k :: 0 <= k < |before| ==> SegmentValue(before[k]).None?
    ensures FindRelay(before + [RelayKey + "=" + value] + after) == Some(value)
  {
    RelaySegmentValue(value);
    var all := before + [RelayKey + "=" + value] + after;
    assert all[|before|] == RelayKey + "=" + value;
    assert SegmentValue(all[|before|]).Some?;
    var k := FindRelayFirstMatch(all);
  }

  lemma SegmentValueIsSlice(segment: string) returns (start: nat)
    requires SegmentValue(segment).Some?
    ensures SliceAt(segment, start, SegmentValue(segment).value)
  {
    start := IndexOf(segment, '=') + 1;
  }

  /** The value found in a query string is a slice of that query. */
  lemma QueryValueIsSlice(query: string) returns (start: nat)
    requires FindRelay(Split(query, '&')).Some?
    ensures SliceAt(query, start, FindRelay(Split(query, '&')).value)
  {
    var segments := Split(query, '&');
    var k := FindRelayFirstMatch(segments);
    var segment := segments[k];
    var value := SegmentValue(segment).value;
    var inQuery := SplitPartIsSlice(query, '&', k);
    assert SliceAt(query, inQuery, segment);
    var inSegment := SegmentValueIsSlice(segment);
    assert SliceAt(segment, inSegment, value);
    SliceAtTrans(query, inQuery, segment, inSegment, value);
    start := inQuery + inSegment;
  }

  /** The value found is a slice of the URI, starting at `start`. */
  lemma ValueIsSliceOfUri(uri: string) returns (start: nat)
    requires ExtractRelayParam(uri).Some?
    ensures SliceAt(uri, start, ExtractRelayParam(uri).value)
  {
    var q := IndexOf(uri, '?') + 1;
    var inQuery := QueryValueIsSlice(uri[q..]);
    SliceOfSuffix(uri, q, inQuery, ExtractRelayParam(uri).value);
    start := q + inQuery;
  }

  /** What the `/` handler answers, sensor readings aside. */
  datatype RootResponse = BadRequest(message: string) | Report(relayOn: bool) | Panic

  /** `RELAY_STATE`: a lazily created cell holding the relay's on/off state. */
  class RelayState {
    var cell: Option<bool>

    constructor (initial: Option<bool>)
      ensures cell == initial
    {
      cell := initial;
    }

    /**
     * The `/` handler: "on" and "off" set the relay (creating the cell if
     * needed); any other value is 400 with the relay untouched; no value
     * leaves it untouched. Reading the state back panics if the cell was never
     * created.
     */
    method HandleRoot(uri: string) returns (r: RootResponse)
      modifies this
      ensures ExtractRelayParam(uri) == Some("on") ==> cell == Some(true) && r == Report(true)
      ensures ExtractRelayParam(uri) == Some("off") ==> cell == Some(false) && r == Report(false)
      ensures ExtractRelayParam(uri).Some? && ExtractRelayParam(uri).value != "on" && ExtractRelayParam(uri).value != "off"
        ==> cell == old(cell) && r == BadRequest("Invalid relay command")
      ensures ExtractRelayParam(uri).None? ==>
        cell == old(cell) && r == (if cell.Some? then Report(cell.value) else Panic)
    {
      var param := ExtractRelayParam(uri);
      if param.Some? {
        var on: bool;
        if param.value == "on" {
          on := true;
        } else if param.value == "off" {
          on := false;
        } else {
          return BadRequest("Invalid relay command");
        }
        cell := Some(on);
      }
      if cell.None? {
        return Panic;
      }
      r := Report(cell.value);
    }
  }
}
