/**
  The device's wire format.

  A reply body reads `prefix?key=value;key=value;...;` followed by a NUL
  character; a request target reads `address/path?param;param;...;stamp=`,
  where the last parameter is a cache-busting timestamp.
 */
module Codec {
  import opened Wrappers
  import opened Dict
  import opened Text

  /** A decoded reply: the path it echoes and its key/value fields. */
  datatype Response = Response(prefix: string, values: Dict<string, string>)

  /** The reply has no `?` (Python's two-name unpacking of the split raises `ValueError`). */
  datatype DecodeError = NoQuestionMark

  /** The lone character the device appends as the final segment of every reply. */
  const NulSegment: string := "\0"

  /** The segments that are not blank, in order (`[p for p in parts if p.strip()]`). */
  function NonBlank(parts: seq<string>): (kept: seq<string>)
    ensures |kept| <= |parts|
    ensures forall p :: p in kept <==> p in parts && !Blank(p)
  {
    if |parts| == 0 then []
    else
      var rest := NonBlank(parts[1..]);
      assert parts == [parts[0]] + parts[1..];
      if Blank(parts[0]) then rest else [parts[0]] + rest
  }

  /** A blank segment is dropped without affecting the segments around it. */
  lemma {:induction false} BlankSegmentDropped(before: seq<string>, blank: string, after: seq<string>)
    requires Blank(blank)
    ensures NonBlank(before + [blank] + after) == NonBlank(before) + NonBlank(after)
  {
    if |before| == 0 {
      assert before + [blank] + after == [blank] + after;
      assert ([blank] + after)[1..] == after;
    } else {
      assert (before + [blank] + after)[0] == before[0];
      assert (before + [blank] + after)[1..] == before[1..] + [blank] + after;
      BlankSegmentDropped(before[1..], blank, after);
    }
  }

  /** Drops the last segment when it is exactly the NUL terminator (`pairs.pop()`). */
  function DropTrailingNul(segs: seq<string>): seq<string> {
    if |segs| > 0 && segs[|segs| - 1] == NulSegment then segs[..|segs| - 1] else segs
  }

  /** The segments the parser looks at: the non-blank pieces of the body, NUL terminator removed. */
  function Segments(body: string): seq<string> {
    DropTrailingNul(NonBlank(Split(body, ';')))
  }

  /**
    One segment read as a key/value pair: split at the first `=`, both sides
    stripped; `None` for a malformed segment without `=`.
   */
  function KeyValue(seg: string): (kv: Option<(string, string)>)
    ensures kv.None? <==> '=' !in seg
  {
    match SplitFirst(seg, '=')
    case None => None
    case Some((k, v)) => Some((Strip(k), Strip(v)))
  }

  /** The pair one segment contributes: none when it is malformed. */
  function Entry(seg: string): (kvs: seq<(string, string)>)
    ensures |kvs| <= 1
  {
    match KeyValue(seg)
    case None => []
    case Some(kv) => [kv]
  }

  /** The key/value pairs of the well-formed segments, in order; malformed segments are skipped. */
  function Entries(segs: seq<string>): (kvs: seq<(string, string)>)
    ensures |kvs| <= |segs|
    ensures forall i :: 0 <= i < |kvs| ==> exists j :: 0 <= j < |segs| && KeyValue(segs[j]) == Some(kvs[i])
  {
    if |segs| == 0 then []
    else
      var rest := Entries(segs[1..]);
      var kvs := Entry(segs[0]) + rest;
      assert forall i :: 0 <= i < |kvs| ==> exists j :: 0 <= j < |segs| && KeyValue(segs[j]) == Some(kvs[i]) by {
        forall i | 0 <= i < |kvs| ensures exists j :: 0 <= j < |segs| && KeyValue(segs[j]) == Some(kvs[i]) {
          if i < |Entry(segs[0])| {
            assert KeyValue(segs[0]) == Some(kvs[i]);
          } else {
            var j :| 0 <= j < |segs[1..]| && KeyValue(segs[1..][j]) == Some(rest[i - |Entry(segs[0])|]);
            assert segs[1..][j] == segs[j + 1];
          }
        }
      }
      kvs
  }

  /** Entries of a concatenation are the entries of each part, in order. */
  lemma {:induction false} EntriesAppend(a: seq<string>, b: seq<string>)
    ensures Entries(a + b) == Entries(a) + Entries(b)
  {
    if |a| == 0 {
      assert a + b == b;
    } else {
      assert (a + b)[0] == a[0];
      assert (a + b)[1..] == a[1..] + b;
      EntriesAppend(a[1..], b);
    }
  }

  /**
    Decodes a reply. The prefix is the text before the first `?`; the values
    come from the segments after it, later duplicates overwriting earlier ones.
   */
  function ParseApiResponse(text: string): (r: Result<Response, DecodeError>)
    ensures r.Err? <==> '?' !in text
    ensures r.Ok? ==> '?' !in r.value.prefix
    ensures r.Ok? ==> |r.value.prefix| < |text| && text[..|r.value.prefix|] == r.value.prefix
    ensures r.Ok? ==> text[|r.value.prefix|] == '?'
    ensures r.Ok? ==> Valid(r.value.values)
  {
    match SplitFirst(text, '?')
    case None => Err(NoQuestionMark)
    case Some((prefix, body)) =>
      assert text[..|prefix|] == prefix;
      Ok(Response(prefix, FromPairs(Entries(Segments(body)))))
  }

  /** The body of a reply: everything after the first `?`. */
  function Body(text: string): string
    requires '?' in text
  {
    text[IndexOf(text, '?') + 1..]
  }

  /**
    What the decoded values mean: each key maps to the value of its last
    well-formed segment, and nothing else is in the map.
   */
  lemma ParsedValues(text: string, k: string)
    requires '?' in text
    ensures ParseApiResponse(text).Ok?
    ensures Get(ParseApiResponse(text).value.values, k) == LastValue(Entries(Segments(Body(text))), k)
  {
    GetFromPairs(Entries(Segments(Body(text))), k);
  }

  /** The NUL terminator is not a key/value pair, so dropping it never changes the result. */
  lemma NulSegmentIgnored(segs: seq<string>)
    ensures Entries(DropTrailingNul(segs)) == Entries(segs)
  {
    if |segs| > 0 && segs[|segs| - 1] == NulSegment {
      var init := segs[..|segs| - 1];
      assert segs == init + [NulSegment];
      EntriesAppend(init, [NulSegment]);
      assert KeyValue(NulSegment) == None;
    }
  }

  /** A malformed segment (no `=`) is skipped without affecting the segments around it. */
  lemma MalformedSegmentSkipped(before: seq<string>, bad: string, after: seq<string>)
    requires '=' !in bad
    ensures Entries(before + [bad] + after) == Entries(before) + Entries(after)
  {
    EntriesAppend(before + [bad], after);
    EntriesAppend(before, [bad]);
  }

  /** A segment splits at its first `=`: the value may itself contain `=`; both sides are stripped. */
  lemma SplitsAtFirstEquals(key: string, value: string)
    requires '=' !in key
    ensures KeyValue(key + "=" + value) == Some((Strip(key), Strip(value)))
  {
    SplitFirstOf(key, '=', value);
  }

  /** Splitting at the first separator finds the separator that follows a separator-free prefix. */
  lemma SplitFirstOf(a: string, sep: char, b: string)
    requires sep !in a
    ensures SplitFirst(a + [sep] + b, sep) == Some((a, b))
  {
    var s := a + [sep] + b;
    var i := IndexOf(s, sep);
    assert s[..|a|] == a;
    assert s[|a|] == sep;
    assert i == |a|;
    assert s[..i] == a && s[i + 1..] == b;
  }

  /** A key or value the device writes as is: no white space at either end. */
  predicate Trimmed(s: string) {
    s == [] || (!IsSpace(s[0]) && !IsSpace(s[|s| - 1]))
  }

  /** Stripping leaves exactly the trimmed strings unchanged. */
  lemma StripTrimmed(s: string)
    ensures Strip(s) == s <==> Trimmed(s)
  {
    if Trimmed(s) && s != [] {
      assert LeadingSpace(s) == 0;
      assert TrailingSpace(s[0..]) == 0;
      assert s[0..|s|] == s;
    }
  }

  /** A field the device can send so that it reads back unchanged. */
  predicate GoodField(field: (string, string)) {
    && field.0 != [] && Trimmed(field.0) && Trimmed(field.1)
    && '=' !in field.0 && ';' !in field.0 && ';' !in field.1
  }

  /** The fields of a reply that read back unchanged: good fields with distinct keys. */
  predicate WellFormedFields(fields: seq<(string, string)>) {
    Distinct(Keys(fields)) && forall i :: 0 <= i < |fields| ==> GoodField(fields[i])
  }

  /** The `k=v` segments a reply carries for `fields`, in order. */
  function FieldSegments(fields: seq<(string, string)>): (segs: seq<string>)
    ensures |segs| == |fields|
  {
    if |fields| == 0 then [] else [fields[0].0 + "=" + fields[0].1] + FieldSegments(fields[1..])
  }

  /** The reply text the device sends for `prefix` and `fields`: `prefix?k=v;...;k=v;` then NUL. */
  function ReplyText(prefix: string, fields: seq<(string, string)>): string {
    prefix + "?" + Join(FieldSegments(fields) + [NulSegment], ';')
  }

  /** The fields after the first of a well-formed reply are well formed too. */
  lemma WellFormedTail(fields: seq<(string, string)>)
    requires |fields| > 0 && WellFormedFields(fields)
    ensures WellFormedFields(fields[1..])
  {
    var tail := fields[1..];
    forall a, b | 0 <= a < b < |tail| ensures Keys(tail)[a] != Keys(tail)[b] {
      assert Keys(fields)[a + 1] != Keys(fields)[b + 1];
    }
    forall a | 0 <= a < |tail| ensures GoodField(tail[a]) {
      assert tail[a] == fields[a + 1];
    }
  }

  /** Each segment of a well-formed reply starts with its key and holds no `;`. */
  lemma {:induction false} FieldSegmentsShape(fields: seq<(string, string)>)
    requires WellFormedFields(fields)
    ensures forall i :: 0 <= i < |fields| ==> ';' !in FieldSegments(fields)[i] && !Blank(FieldSegments(fields)[i])
  {
    if |fields| > 0 {
      WellFormedTail(fields);
      FieldSegmentsShape(fields[1..]);
      var (k, v) := fields[0];
      assert GoodField(fields[0]);
      var seg := FieldSegments(fields)[0];
      assert seg == k + "=" + v;
      assert !IsSpace(k[0]) && seg[0] == k[0];
      forall i | 1 <= i < |fields|
        ensures FieldSegments(fields)[i] == FieldSegments(fields[1..])[i - 1]
      { }
    }
  }

  /**
    Decoding a well-formed reply gives back exactly its prefix and its fields,
    in order, whatever their number.
   */
  lemma {:induction false} DecodeReply(prefix: string, fields: seq<(string, string)>)
    requires '?' !in prefix
    requires WellFormedFields(fields)
    ensures ParseApiResponse(ReplyText(prefix, fields)) == Ok(Response(prefix, fields))
  {
    var segs := FieldSegments(fields);
    var parts := segs + [NulSegment];
    var body := Join(parts, ';');
    FieldSegmentsShape(fields);
    assert forall i :: 0 <= i < |parts| ==> ';' !in parts[i] && !Blank(parts[i]) by {
      forall i | 0 <= i < |parts| ensures ';' !in parts[i] && !Blank(parts[i]) {
        if i < |segs| {
          assert parts[i] == segs[i];
        } else {
          assert parts[i] == NulSegment;
          assert !IsSpace(NulSegment[0]);
        }
      }
    }
    SplitJoin(parts, ';');
    SplitFirstOf(prefix, '?', body);
    assert ReplyText(prefix, fields) == prefix + ['?'] + body;
    NonBlankKeepsAll(parts);
    assert DropTrailingNul(parts) == segs;
    EntriesOfFields(fields);
    FromDistinctPairs(fields);
  }

  /** Filtering segments none of which is blank keeps all of them. */
  lemma {:induction false} NonBlankKeepsAll(parts: seq<string>)
    requires forall i :: 0 <= i < |parts| ==> !Blank(parts[i])
    ensures NonBlank(parts) == parts
  {
    if |parts| > 0 {
      NonBlankKeepsAll(parts[1..]);
    }
  }

  /** The segment written for a good field reads back as that field. */
  lemma EntryOfField(field: (string, string))
    requires GoodField(field)
    ensures Entry(field.0 + "=" + field.1) == [field]
  {
    var (k, v) := field;
    SplitsAtFirstEquals(k, v);
    StripTrimmed(k);
    StripTrimmed(v);
  }

  /** Reading `k=v` segments back gives the fields they were written from. */
  lemma {:induction false} EntriesOfFields(fields: seq<(string, string)>)
    requires WellFormedFields(fields)
    ensures Entries(FieldSegments(fields)) == fields
  {
    if |fields| > 0 {
      assert GoodField(fields[0]);
      EntryOfField(fields[0]);
      WellFormedTail(fields);
      EntriesOfFields(fields[1..]);
      var segs := FieldSegments(fields);
      assert segs[1..] == FieldSegments(fields[1..]);
      assert Entries(segs) == Entry(segs[0]) + Entries(segs[1..]);
      assert fields == [fields[0]] + fields[1..];
    }
  }

  /** The device's reply to a rejected login is the text `login?result=error;` then NUL. */
  lemma LoginErrorText()
    ensures ReplyText("login", [("result", "error")]) == "login?result=error;\0"
  {
    ReplyTextOfOne("login", "result", "error");
    assert "login" + "?" + "result" + "=" + "error" + ";" + NulSegment == "login?result=error;\0";
  }

  /** A reply with one field is `prefix?key=value;` then NUL. */
  lemma ReplyTextOfOne(prefix: string, key: string, value: string)
    ensures ReplyText(prefix, [(key, value)]) == prefix + "?" + key + "=" + value + ";" + NulSegment
  {
    var fields := [(key, value)];
    assert FieldSegments(fields[1..]) == [];
    assert FieldSegments(fields) + [NulSegment] == [key + "=" + value, NulSegment];
    assert Join([NulSegment], ';') == NulSegment;
  }

  /** That reply decodes to prefix `login` and the single field `result=error`. */
  lemma LoginErrorReply()
    ensures ParseApiResponse(ReplyText("login", [("result", "error")]))
         == Ok(Response("login", [("result", "error")]))
  {
    var fields := [("result", "error")];
    assert GoodField(fields[0]);
    DecodeReply("login", fields);
  }

  /** The fields of a full reading reply from the device, as the parser's tests use it. */
  function ReadingFields(): seq<(string, string)> {
    [ ("S_227_85", "-13.3"), ("S_259_85", "39.1"), ("S_272_85", "1"), ("S_89_85", "20.0"),
      ("S_90_85", "13.0"), ("S_54_85", "12.0"), ("S_55_85", "76.0"), ("S_61_85", "40.0"),
      ("S_63_85", "28.0"), ("S_65_85", "10.0"), ("S_59_85", "5"), ("S_92_85", "0"),
      ("S_135_85", "2"), ("S_26_85", "600"), ("S_275_85", "13.9"), ("S_134_85", "0.0"),
      ("S_0_0", "0.0"), ("S_1000_0", "L1 Alasajo") ]
  }

  /** The full reading reply decodes to prefix `request` and all 18 of its fields, in order. */
  lemma ReadingReply()
    ensures ParseApiResponse(ReplyText("request", ReadingFields()))
         == Ok(Response("request", ReadingFields()))
    ensures |ReadingFields()| == 18
  {
    ReadingFieldsWellFormed();
    DecodeReply("request", ReadingFields());
  }

  /** The reading reply's fields are trimmed and their 18 sensor ids pairwise distinct. */
  lemma ReadingFieldsWellFormed()
    ensures WellFormedFields(ReadingFields())
  {
    ReadingFieldsGood();
    ReadingKeysDistinct();
  }

  /** Every field of the reading reply is trimmed and free of separators. */
  lemma ReadingFieldsGood()
    ensures forall i :: 0 <= i < |ReadingFields()| ==> GoodField(ReadingFields()[i])
  {
  }

  /** The reading reply names each sensor id once. */
  lemma ReadingKeysDistinct()
    ensures Distinct(Keys(ReadingFields()))
  {
  }

  /** The request target: `address/path?` and the parameters joined by `;`, timestamp last. */
  function RequestUrl(address: string, path: string, params: seq<string>, timestamp: string): (url: string)
    ensures address + "/" + path + "?" <= url
    ensures |timestamp| + 1 <= |url| && url[|url| - |timestamp| - 1..] == timestamp + "="
  {
    var all := params + [timestamp + "="];
    var location := address + "/" + path + "?";
    var joined := Join(all, ';');
    assert all[|all| - 1] == timestamp + "=";
    assert (location + joined)[|location + joined| - |timestamp| - 1..] == joined[|joined| - |timestamp| - 1..];
    location + joined
  }

  /**
    The request target reads back as its location, then its parameters with
    the timestamp parameter (ending in `=`) appended last, so even a request
    without parameters carries exactly one.
   */
  lemma RequestUrlParts(address: string, path: string, params: seq<string>, timestamp: string)
    requires '?' !in address && '?' !in path
    requires forall i :: 0 <= i < |params| ==> ';' !in params[i]
    requires ';' !in timestamp
    ensures var url := RequestUrl(address, path, params, timestamp);
      && SplitFirst(url, '?').Some?
      && SplitFirst(url, '?').value.0 == address + "/" + path
      && Split(SplitFirst(url, '?').value.1, ';') == params + [timestamp + "="]
  {
    var all := params + [timestamp + "="];
    forall i | 0 <= i < |all| ensures ';' !in all[i] {
      if i < |params| { assert all[i] == params[i]; }
    }
    SplitJoin(all, ';');
    var location := address + "/" + path;
    assert '?' !in location;
    SplitFirstOf(location, '?', Join(all, ';'));
    assert RequestUrl(address, path, params, timestamp) == location + ['?'] + Join(all, ';');
  }
}
