/**
 * `extract_image.py`: pull the base 64 payload of the first
 * `data:image/png;base64,` URI out of an HTML text, repair its padding by the
 * length modulo 4, decode it strictly and write the bytes. The HTML text is a
 * parameter and the file write is reduced to whether it succeeds.
 */
module ExtractImage {
  import opened Text
  import opened Base64
  import opened Wrappers

  const Marker: string := "data:image/png;base64,"
  const Quote: char := '"'

  /** Python's `s.find(sub, start)`: the first occurrence at or after `start`, or -1. */
  function Find(s: string, sub: string, start: nat): (i: int)
    ensures i == -1 || (start <= i && OccursAt(s, sub, i))
    ensures i == -1 ==> forall j :: start <= j ==> !OccursAt(s, sub, j)
    ensures 0 <= i ==> forall j :: start <= j < i ==> !OccursAt(s, sub, j)
    decreases |s| - start
  {
    if start + |sub| > |s| then -1
    else if OccursAt(s, sub, start) then start
    else Find(s, sub, start + 1)
  }

  /** Where the payload lies: the first marker, and the first quote from the marker on. */
  datatype Location = NoMarker | NoEnd(start: nat) | Found(start: nat, end: nat)

  /** The marker holds no quote character. */
  lemma MarkerHasNoQuote()
    ensures forall k :: 0 <= k < |Marker| ==> Marker[k] != Quote
  {
  }

  /** Searching for the quote: the first quote from `start` on, or none at all. */
  lemma FindQuote(html: string, start: nat)
    ensures var end := Find(html, [Quote], start);
      && (end == -1 ==> forall k :: start <= k < |html| ==> html[k] != Quote)
      && (end != -1 ==> start <= end < |html| && html[end] == Quote)
      && (end != -1 ==> forall k :: start <= k < end ==> html[k] != Quote)
  {
    var end := Find(html, [Quote], start);
    forall k | start <= k < |html| && html[k] == Quote ensures OccursAt(html, [Quote], k) {
      assert html[k..k + 1] == [html[k]];
    }
    if end != -1 {
      assert html[end] == html[end..end + 1][0];
    }
  }

  /** Lines 9 and 16: the two searches, the second one started at the marker. */
  function Locate(html: string): (r: Location)
    ensures r.NoMarker? <==> forall i :: 0 <= i ==> !OccursAt(html, Marker, i)
    ensures !r.NoMarker? ==> OccursAt(html, Marker, r.start)
    ensures !r.NoMarker? ==> forall i :: 0 <= i < r.start ==> !OccursAt(html, Marker, i)
    ensures r.NoEnd? ==> forall k :: r.start <= k < |html| ==> html[k] != Quote
    ensures r.Found? ==> r.start + |Marker| <= r.end < |html| && html[r.end] == Quote
    ensures r.Found? ==> forall k :: r.start <= k < r.end ==> html[k] != Quote
  {
    var start := Find(html, Marker, 0);
    if start == -1 then NoMarker
    else
      var end := Find(html, [Quote], start);
      FindQuote(html, start);
      if end == -1 then NoEnd(start)
      else
        assert end >= start + |Marker| by {
          MarkerHasNoQuote();
        }
        Found(start, end)
  }

  /** Line 22: the text between the end of the marker and the quote. */
  function Payload(html: string, start: nat, end: nat): (p: string)
    requires start + |Marker| <= end <= |html|
    ensures |p| == end - start - |Marker|
    ensures forall k :: 0 <= k < |p| ==> p[k] == html[start + |Marker| + k]
  {
    html[start + |Marker|..end]
  }

  /** The payload of a found location never holds a quote. */
  lemma PayloadHasNoQuote(html: string)
    requires Locate(html).Found?
    ensures var loc := Locate(html);
      forall k :: 0 <= k < |Payload(html, loc.start, loc.end)| ==> Payload(html, loc.start, loc.end)[k] != Quote
  {
  }

  /** Lines 30-38: add `=` until the length is a multiple of four. */
  function RepairPadding(p: string): (r: string)
    ensures |r| % 4 == 0
    ensures |p| <= |r| && r[..|p|] == p
    ensures forall k :: |p| <= k < |r| ==> r[k] == '='
    ensures |r| - |p| == (4 - |p| % 4) % 4
  {
    if |p| % 4 == 1 then p + "==="
    else if |p| % 4 == 2 then p + "=="
    else if |p| % 4 == 3 then p + "="
    else p
  }

  /** Why the script ends with `exit(1)`. */
  datatype Failure = MarkerNotFound | EndNotFound | DecodeFailed | WriteFailed

  datatype Outcome = Written(image: seq<Byte>) | Failed(reason: Failure)

  /** The exit status: 0 when the image was written, 1 on every failure. */
  function ExitCode(o: Outcome): (code: int)
    ensures code == 0 <==> o.Written?
    ensures code == 0 || code == 1
  {
    if o.Written? then 0 else 1
  }

  /**
   * The script, step by step. `writeSucceeds` stands for the `open`/`write` of
   * lines 44-45, whose failure the `except` of line 47 catches like a decode error.
   */
  method Run(html: string, writeSucceeds: bool) returns (outcome: Outcome)
    ensures Locate(html).NoMarker? ==> outcome == Failed(MarkerNotFound)
    ensures Locate(html).NoEnd? ==> outcome == Failed(EndNotFound)
    ensures Locate(html).Found? ==>
      var loc := Locate(html);
      var decoded := Decode(RepairPadding(Payload(html, loc.start, loc.end)));
      outcome == if decoded.None? then Failed(DecodeFailed)
                 else if !writeSucceeds then Failed(WriteFailed)
                 else Written(decoded.value)
  {
    var startIndex := Find(html, Marker, 0);
    if startIndex == -1 {
      return Failed(MarkerNotFound);
    }
    var endIndex := Find(html, [Quote], startIndex);
    if endIndex == -1 {
      return Failed(EndNotFound);
    }
    assert Locate(html) == Found(startIndex, endIndex);
    var data := html[startIndex + |Marker|..endIndex];
    if |data| % 4 == 1 {
      data := data + "===";
    } else if |data| % 4 == 2 {
      data := data + "==";
    } else if |data| % 4 == 3 {
      data := data + "=";
    }
    var image := Decode(data);
    if image.None? {
      return Failed(DecodeFailed);
    }
    if !writeSucceeds {
      return Failed(WriteFailed);
    }
    return Written(image.value);
  }

  /**
   * An alphabet-only payload whose length leaves remainder 0, 2 or 3 decodes
   * once repaired, into three bytes per full group and one or two for the rest.
   */
  lemma {:induction false} RepairedPayloadDecodes(p: string)
    requires AllAlphabet(p) && |p| % 4 != 1
    ensures WellFormed(RepairPadding(p))
    ensures Decode(RepairPadding(p)).Some?
    ensures |Decode(RepairPadding(p)).value| == 3 * (|p| / 4) + (if |p| % 4 == 0 then 0 else |p| % 4 - 1)
  {
    var r := RepairPadding(p);
    var n := |r| - |p|;
    if n == 0 {
      assert r == p;
      if |r| > 0 { assert IsAlphabet(r[|r| - 1]); }
    } else if n == 1 {
      assert IsAlphabet(p[|p| - 1]) && r[|r| - 2] == p[|p| - 1];
    }
    assert Pads(r) == n;
    assert r[..|r| - Pads(r)] == p;
    DecodeIffWellFormed(r);
  }

  /** A payload one character past a multiple of four never decodes, whatever its characters. */
  lemma RemainderOneNeverDecodes(p: string)
    requires |p| % 4 == 1
    ensures Decode(RepairPadding(p)).None?
  {
    var r := RepairPadding(p);
    DecodeIffWellFormed(r);
    assert r[|r| - 3] == '=';
  }

  /**
   * For an alphabet-only payload of remainder 2 or 3, the decoded bytes encode
   * back to the repaired payload exactly when its last character before the
   * padding has zero unused bits.
   */
  lemma RepairedPayloadReEncodes(p: string)
    requires AllAlphabet(p) && (|p| % 4 == 2 || |p| % 4 == 3)
    ensures Decode(RepairPadding(p)).Some?
    ensures Encode(Decode(RepairPadding(p)).value) == RepairPadding(p) <==> Canonical(RepairPadding(p))
  {
    RepairedPayloadDecodes(p);
    ReEncodeIffCanonical(RepairPadding(p));
  }

  /** `QR` is repaired to `QR==`, which decodes to the single byte 65; that byte encodes as `QQ==`. */
  lemma NonCanonicalPayload()
    ensures RepairPadding("QR") == "QR=="
    ensures Decode("QR==") == Some([65])
    ensures Encode([65]) == "QQ=="
  {
    assert "QR==" != [];
    assert IsAlphabet('Q') && ValueOf('Q') == 16 && ValueOf('R') == 17;
    assert !AllAlphabet("QR==") by { assert !IsAlphabet("QR=="[2]); }
    assert Bytes3(16, 17, 0, 0)[..1] == [65];
  }
}
