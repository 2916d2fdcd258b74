/** Removal of a Markdown code fence around the language model's reply
    before it is parsed as JSON (backend/services/summarization.py). The
    same four lines appear in `summarize_transcript` and in
    `extract_action_items`; this module states them once. */
module Fences {
  import opened Prelude
  import opened Text

  const Fence: string := "```"
  const JsonTag: string := "json"

  /** `if raw.startswith("```"): raw = raw.split("```")[1]; if raw.startswith("json"): raw = raw[4:]` */
  function StripFences(raw: string): (out: string)
    ensures !StartsWith(raw, Fence) ==> out == raw
    ensures StartsWith(raw, Fence) ==> !Contains(out, Fence)
  {
    if StartsWith(raw, Fence) then
      var parts := Split(raw, Fence);
      assert FindFrom(raw, Fence, 0) == Some(0);
      assert parts == [raw[..0]] + Split(raw[3..], Fence);
      var body := parts[1];
      SplitPiecesAreFree(raw, Fence);
      if StartsWith(body, JsonTag) then
        var out := body[4..];
        assert !Contains(out, Fence) by {
          forall j: nat | j < |out|
            ensures !OccursAt(out, Fence, j)
          {
            if OccursAt(out, Fence, j) {
              assert body[j + 4..j + 7] == out[j..j + 3];
              assert OccursAt(body, Fence, j + 4);
            }
          }
        }
        out
      else body
    else raw
  }

  /** The piece `split` puts after the opening fence runs up to the next
      fence, or to the end when there is none. */
  lemma BodyRunsToNextFence(raw: string)
    requires StartsWith(raw, Fence)
    ensures FindFrom(raw[3..], Fence, 0).None? ==> Split(raw, Fence)[1] == raw[3..]
    ensures FindFrom(raw[3..], Fence, 0).Some? ==>
              Split(raw, Fence)[1] == raw[3..][..FindFrom(raw[3..], Fence, 0).value]
  {
    assert FindFrom(raw, Fence, 0) == Some(0);
    assert Split(raw, Fence) == [raw[..0]] + Split(raw[3..], Fence);
  }

  /** `raw` is an opening fence, a `json` tag exactly when the text after
      the fence starts with `json` (and nothing otherwise), the text `out`,
      and a remainder that is empty or starts with a closing fence, with no
      fence starting inside the tag or `out`. */
  predicate FencedAs(raw: string, tag: string, out: string, rest: string) {
    && (tag == "" || tag == JsonTag)
    && StartsWith(raw, Fence)
    && (tag == JsonTag <==> StartsWith(raw[3..], JsonTag))
    && raw[3..] == tag + out + rest
    && (rest == [] || StartsWith(rest, Fence))
    && (forall j: nat :: 3 <= j < 3 + |tag| + |out| ==> !OccursAt(raw, Fence, j))
  }

  /** The kept piece and what follows it make up everything after the
      opening fence, and what follows is empty or starts with a fence. */
  lemma BodyThenRest(raw: string) returns (rest: string)
    requires StartsWith(raw, Fence)
    ensures raw[3..] == Split(raw, Fence)[1] + rest
    ensures rest == [] || StartsWith(rest, Fence)
  {
    var inner := raw[3..];
    var found := FindFrom(inner, Fence, 0);
    BodyRunsToNextFence(raw);
    if found.Some? {
      rest := inner[found.value..];
      assert rest[..3] == Fence;
      assert inner == inner[..found.value] + rest;
    } else {
      rest := [];
    }
  }

  /** No fence starts anywhere inside the kept piece, not even one that
      would run past its end. */
  lemma NoFenceInsideBody(raw: string)
    requires StartsWith(raw, Fence)
    ensures forall j: nat :: 3 <= j < 3 + |Split(raw, Fence)[1]| ==> !OccursAt(raw, Fence, j)
  {
    var inner := raw[3..];
    var n := |Split(raw, Fence)[1]|;
    BodyRunsToNextFence(raw);
    assert forall k: nat :: k < n ==> !OccursAt(inner, Fence, k);
    forall j: nat | 3 <= j < 3 + n
      ensures !OccursAt(raw, Fence, j)
    {
      FenceShifts(raw, j);
    }
  }

  /** A fence at `j` in `raw` is a fence at `j - 3` after the opening one. */
  lemma FenceShifts(raw: string, j: nat)
    requires 3 <= j <= |raw|
    ensures OccursAt(raw, Fence, j) ==> OccursAt(raw[3..], Fence, j - 3)
  {
    if j + 3 <= |raw| {
      var window := raw[3..][j - 3..j];
      assert forall k :: 0 <= k < 3 ==> window[k] == raw[j + k];
      assert raw[j..j + 3] == window;
    }
  }

  /** For fenced input the result is the text between the opening fence and
      the next fence (or the end), less one leading `json` tag. */
  lemma FencedLayout(raw: string)
    requires StartsWith(raw, Fence)
    ensures exists tag, rest :: FencedAs(raw, tag, StripFences(raw), rest)
  {
    var body := Split(raw, Fence)[1];
    var rest := BodyThenRest(raw);
    NoFenceInsideBody(raw);
    var out := StripFences(raw);
    var tag := if StartsWith(body, JsonTag) then JsonTag else "";
    assert body == tag + out by {
      assert FindFrom(raw, Fence, 0) == Some(0);
      assert Split(raw, Fence) == [raw[..0]] + Split(raw[3..], Fence);
      if tag == JsonTag {
        assert body == body[..4] + body[4..];
      }
    }
    assert raw[3..] == tag + out + rest;
    assert tag == JsonTag <==> StartsWith(raw[3..], JsonTag) by {
      JsonTagSeenThroughBody(raw, body, rest);
    }
    assert FencedAs(raw, tag, out, rest);
  }

  /** The kept piece starts with `json` exactly when the text after the
      opening fence does: a closing fence cannot start among its first four
      characters. */
  lemma JsonTagSeenThroughBody(raw: string, body: string, rest: string)
    requires StartsWith(raw, Fence)
    requires raw[3..] == body + rest
    requires rest == [] || StartsWith(rest, Fence)
    ensures StartsWith(body, JsonTag) <==> StartsWith(raw[3..], JsonTag)
  {
    var inner := raw[3..];
    if StartsWith(inner, JsonTag) {
      assert forall i :: 0 <= i < 4 ==> inner[i] != '`';
      if rest != [] {
        assert inner[|body|] == '`';
      }
      assert |body| >= 4;
      assert body[..4] == inner[..4];
    }
    if StartsWith(body, JsonTag) {
      assert inner[..4] == body[..4];
    }
  }

  /** The layout pins the result down: only one tag and one text fit it. */
  lemma FencedLayoutUnique(raw: string, tag1: string, out1: string, rest1: string,
                           tag2: string, out2: string, rest2: string)
    requires FencedAs(raw, tag1, out1, rest1) && FencedAs(raw, tag2, out2, rest2)
    ensures tag1 == tag2
    ensures out1 == out2
  {
    assert tag1 == tag2;
    var inner := raw[3..];
    if |out1| < |out2| {
      var j := 3 + |tag1| + |out1|;
      if rest1 == [] {
        assert false;
      } else {
        assert raw[j..j + 3] == rest1[..3];
        assert OccursAt(raw, Fence, j);
        assert false;
      }
    } else if |out2| < |out1| {
      var j := 3 + |tag2| + |out2|;
      if rest2 == [] {
        assert false;
      } else {
        assert raw[j..j + 3] == rest2[..3];
        assert OccursAt(raw, Fence, j);
        assert false;
      }
    }
    assert inner[|tag1|..|tag1| + |out1|] == out1;
    assert inner[|tag2|..|tag2| + |out2|] == out2;
  }

  /** Stripping undoes the wrapping the language model tends to add: a
      backtick-free payload wrapped in fences, with or without a `json` tag
      and with anything after the closing fence, comes back unchanged. */
  lemma StripUnwraps(tag: string, payload: string, trailer: string)
    requires tag == "" || tag == JsonTag
    requires '`' !in payload
    requires tag == "" ==> !StartsWith(payload, JsonTag)
    ensures StripFences(Fence + tag + payload + Fence + trailer) == payload
  {
    var raw := Fence + tag + payload + Fence + trailer;
    var inner := tag + payload + Fence + trailer;
    assert raw[3..] == inner;
    var k := |tag| + |payload|;
    assert inner[k..k + 3] == Fence;
    FirstFence(inner, k);
    BodyRunsToNextFence(raw);
    assert Split(raw, Fence)[1] == tag + payload;
    if tag == JsonTag {
      assert (tag + payload)[..4] == JsonTag;
    } else {
      assert tag + payload == payload;
    }
  }

  /** Only the lower-case tag is recognised: `JSON` stays in the output. */
  lemma UpperCaseTagKept(payload: string)
    requires '`' !in payload
    ensures StripFences(Fence + "JSON" + payload + Fence) == "JSON" + payload
  {
    var raw := Fence + "JSON" + payload + Fence;
    var inner := "JSON" + payload + Fence;
    assert raw[3..] == inner;
    var k := 4 + |payload|;
    assert inner[k..k + 3] == Fence;
    FirstFence(inner, k);
    BodyRunsToNextFence(raw);
    assert Split(raw, Fence)[1] == "JSON" + payload;
    assert ("JSON" + payload)[0] != JsonTag[0];
  }

  lemma FirstFence(s: string, k: nat)
    requires OccursAt(s, Fence, k)
    requires forall j: nat :: j < k ==> s[j] != '`'
    ensures FindFrom(s, Fence, 0) == Some(k)
  {
    forall j: nat | j < k
      ensures !OccursAt(s, Fence, j)
    {
      if j + 3 <= |s| {
        assert s[j..j + 3][0] == s[j];
      }
    }
  }
}
