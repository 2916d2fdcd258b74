/** Audio-file validation, which the system performs twice: once in the browser
    before upload (`validate` in frontend/src/pages/Upload.jsx) and once,
    authoritatively, on the server (`validate_audio_file` in
    backend/services/transcription.py). Both take the text after the last `.`
    of the file name, lower-case it, check it against six formats and then
    reject sizes strictly above 25 MiB. */
module AudioValidation {
  import opened Prelude
  import opened Text

  /** The client's `ACCEPTED` list, in its declared order. */
  const Accepted: seq<string> := ["mp3", "wav", "m4a", "ogg", "webm", "mp4"]

  /** The server's `SUPPORTED_FORMATS` set. */
  const SupportedFormats: set<string> := {"mp3", "wav", "m4a", "ogg", "webm", "mp4"}

  const MaxFileSizeMB: nat := 25
  const MaxFileSizeBytes: nat := MaxFileSizeMB * 1024 * 1024

  /** The size message, identical on both sides; 25 is `MAX_FILE_SIZE_MB`. */
  const TooLargeMessage: string := "File too large. Maximum size is 25MB."

  /** `e` is the final `.`-separated segment of `name`: it holds no `.`, it
      ends `name`, and it is either all of `name` or preceded by a `.`. */
  predicate IsFinalSegment(name: string, e: string) {
    && '.' !in e
    && |e| <= |name|
    && name[|name| - |e|..] == e
    && (|e| == |name| || name[|name| - |e| - 1] == '.')
  }

  /** Position of the last `c` in `s`, as Python's `str.rfind`. */
  function LastIndexOf(s: string, c: char): (r: Option<nat>)
    ensures r.Some? ==> r.value < |s| && s[r.value] == c
    ensures r.Some? ==> forall j :: r.value < j < |s| ==> s[j] != c
    ensures r.None? ==> c !in s
    decreases |s|
  {
    if |s| == 0 then None
    else if s[|s| - 1] == c then Some(|s| - 1)
    else LastIndexOf(s[..|s| - 1], c)
  }

  /** Python's `s.rsplit(c, 1)`: at most one cut, at the last occurrence. */
  function RSplitOnce(s: string, c: char): (parts: seq<string>)
    ensures 1 <= |parts| <= 2
  {
    match LastIndexOf(s, c)
    case None => [s]
    case Some(i) => [s[..i], s[i + 1..]]
  }

  /** The server's raw extension, `filename.rsplit(".", 1)[-1]`. */
  function ServerRawExtension(filename: string): (e: string)
    ensures IsFinalSegment(filename, e)
  {
    var parts := RSplitOnce(filename, '.');
    var e := Last(parts);
    assert parts[|parts| - 1] == e;
    e
  }

  /** The client's raw extension, `f.name.split(".").pop()`. */
  function ClientRawExtension(name: string): string {
    Last(Split(name, "."))
  }

  /** The final segment of a name is unique. */
  lemma FinalSegmentUnique(name: string, e1: string, e2: string)
    requires IsFinalSegment(name, e1) && IsFinalSegment(name, e2)
    ensures e1 == e2
  {
    assert |e1| == |e2|;
  }

  /** The final segment after a `.` is also the final segment of the whole. */
  lemma FinalSegmentAfterDot(name: string, i: nat, e: string)
    requires i < |name| && name[i] == '.'
    requires IsFinalSegment(name[i + 1..], e)
    ensures IsFinalSegment(name, e)
  {
    var rest := name[i + 1..];
    assert name[|name| - |e|..] == rest[|rest| - |e|..];
    if |e| < |rest| {
      assert name[|name| - |e| - 1] == rest[|rest| - |e| - 1];
    }
  }

  /** A search for `.` that finds nothing means the name holds no `.`. */
  lemma NotFoundMeansNoDot(name: string)
    requires FindFrom(name, ".", 0).None?
    ensures '.' !in name
  {
    forall j | 0 <= j < |name|
      ensures name[j] != '.'
    {
      assert !OccursAt(name, ".", j);
      assert name[j..j + 1] == [name[j]];
    }
  }

  /** `split(".").pop()` yields the final segment of the name. */
  lemma {:induction false} ClientRawExtensionIsFinal(name: string)
    ensures IsFinalSegment(name, ClientRawExtension(name))
    decreases |name|
  {
    match FindFrom(name, ".", 0)
    case None =>
      assert ClientRawExtension(name) == name;
      NotFoundMeansNoDot(name);
    case Some(i) =>
      var rest := name[i + 1..];
      ClientRawExtensionIsFinal(rest);
      assert ClientRawExtension(name) == ClientRawExtension(rest) by {
        var parts := Split(rest, ".");
        assert Split(name, ".") == [name[..i]] + parts;
        assert Last([name[..i]] + parts) == Last(parts);
      }
      assert name[i] == '.' by {
        assert name[i..i + 1] == ".";
      }
      FinalSegmentAfterDot(name, i, ClientRawExtension(rest));
  }

  /** Client and server compute the same raw extension for every name. */
  lemma RawExtensionsAgree(name: string)
    ensures ClientRawExtension(name) == ServerRawExtension(name)
  {
    ClientRawExtensionIsFinal(name);
    FinalSegmentUnique(name, ClientRawExtension(name), ServerRawExtension(name));
  }

  function ServerExtension(filename: string): string {
    Lower(ServerRawExtension(filename))
  }

  function ClientExtension(name: string): string {
    Lower(ClientRawExtension(name))
  }

  /** `order` is some iteration order of the `SUPPORTED_FORMATS` set. */
  predicate IsSetOrder(order: seq<string>) {
    multiset(order) == multiset(Accepted)
  }

  /** The fixed start of the server's rejection message for `ext`. */
  function UnsupportedPrefix(ext: string): string {
    "Unsupported format '." + ext + "'"
  }

  /** The server's rejection message: the prefix, then the formats in the
      order the set yields them. */
  function ServerUnsupportedMessage(ext: string, order: seq<string>): (msg: string)
    ensures StartsWith(msg, UnsupportedPrefix(ext))
    ensures msg != ""
  {
    var prefix := UnsupportedPrefix(ext);
    var msg := prefix + ". Allowed: " + Join(order, ", ");
    assert msg[..|prefix|] == prefix;
    msg
  }

  /** `validate_audio_file(filename, file_size_bytes)`. The format list in
      the rejection message joins a Python set, whose iteration order is not
      fixed; `order` stands for whichever order the set yields. */
  function ValidateAudioFile(filename: string, size: nat, order: seq<string>): (r: (bool, string))
    requires IsSetOrder(order)
    ensures r.0 <==> ServerExtension(filename) in SupportedFormats && size <= MaxFileSizeBytes
    ensures r.0 <==> r.1 == ""
    ensures ServerExtension(filename) !in SupportedFormats ==>
              StartsWith(r.1, UnsupportedPrefix(ServerExtension(filename)))
    ensures ServerExtension(filename) in SupportedFormats && size > MaxFileSizeBytes ==>
              r.1 == TooLargeMessage
  {
    var ext := ServerExtension(filename);
    if ext !in SupportedFormats then (false, ServerUnsupportedMessage(ext, order))
    else if size > MaxFileSizeMB * 1024 * 1024 then (false, TooLargeMessage)
    else (true, "")
  }

  /** The client's rejection message for an unsupported extension. */
  function UnsupportedMessage(ext: string): string {
    "Unsupported format ." + ext + ". Allowed: " + Join(Accepted, ", ")
  }

  /** `validate(f)` in the upload view: the empty string means acceptable. */
  function Validate(name: string, size: nat): (msg: string)
    ensures msg == "" <==> ClientExtension(name) in Accepted && size <= MaxFileSizeBytes
    ensures ClientExtension(name) !in Accepted ==>
              msg == "Unsupported format ." + ClientExtension(name) + ". Allowed: mp3, wav, m4a, ogg, webm, mp4"
    ensures ClientExtension(name) in Accepted && size > MaxFileSizeBytes ==> msg == TooLargeMessage
  {
    var ext := ClientExtension(name);
    if ext !in Accepted then UnsupportedMessage(ext)
    else if size > 25 * 1024 * 1024 then TooLargeMessage
    else ""
  }

  /** Client and server accept exactly the same (name, size) pairs, and for
      an oversize file with a good extension they give the same message. */
  lemma ClientServerAgree(name: string, size: nat, order: seq<string>)
    requires IsSetOrder(order)
    ensures ValidateAudioFile(name, size, order).0 <==> Validate(name, size) == ""
    ensures ValidateAudioFile(name, size, order).1 == TooLargeMessage <==>
              Validate(name, size) == TooLargeMessage
  {
    RawExtensionsAgree(name);
    var ext := ClientExtension(name);
    assert ext in SupportedFormats <==> ext in Accepted;
    if ext !in Accepted {
      var server := ValidateAudioFile(name, size, order).1;
      var prefix := UnsupportedPrefix(ext);
      assert server[..|prefix|] == prefix;
      assert |TooLargeMessage| >= |prefix| ==> TooLargeMessage[..|prefix|] != prefix by {
        if |TooLargeMessage| >= |prefix| {
          assert TooLargeMessage[0] != prefix[0];
        }
      }
      var client := Validate(name, size);
      assert client[0] == 'U';
    }
  }

  /** The format check comes first: a bad extension is reported as such even
      when the file is also too large. */
  lemma FormatCheckedBeforeSize(name: string, size: nat, order: seq<string>)
    requires IsSetOrder(order)
    requires ServerExtension(name) !in SupportedFormats
    requires size > MaxFileSizeBytes
    ensures ValidateAudioFile(name, size, order).1 != TooLargeMessage
    ensures Validate(name, size) == UnsupportedMessage(ClientExtension(name))
  {
    RawExtensionsAgree(name);
    var m := ValidateAudioFile(name, size, order).1;
    assert m[0] == 'U';
  }

  /** 26214400 bytes is the last accepted size; one byte more is refused. */
  lemma SizeBoundary(order: seq<string>)
    requires IsSetOrder(order)
    ensures ValidateAudioFile("talk.mp3", 26214400, order) == (true, "")
    ensures ValidateAudioFile("talk.mp3", 26214401, order) == (false, TooLargeMessage)
    ensures Validate("talk.mp3", 26214400) == ""
    ensures Validate("talk.mp3", 26214401) == TooLargeMessage
  {
    ExtensionOfTalk();
  }

  /** Lower-casing `MP3` or `mp3` gives `mp3`. */
  lemma LowerMp3()
    ensures Lower("MP3") == "mp3"
    ensures Lower("mp3") == "mp3"
  {
    var u := Lower("MP3");
    assert |u| == 3 && u[0] == 'm' && u[1] == 'p' && u[2] == '3';
    var l := Lower("mp3");
    assert |l| == 3 && l[0] == 'm' && l[1] == 'p' && l[2] == '3';
  }

  /** Both sides lower-case the same final segment. */
  lemma ExtensionIs(name: string, raw: string)
    requires IsFinalSegment(name, raw)
    ensures ServerExtension(name) == Lower(raw)
    ensures ClientExtension(name) == Lower(raw)
  {
    FinalSegmentUnique(name, ServerRawExtension(name), raw);
    RawExtensionsAgree(name);
  }

  lemma ExtensionOfTalk()
    ensures ServerExtension("talk.mp3") == "mp3"
    ensures ClientExtension("talk.mp3") == "mp3"
  {
    assert IsFinalSegment("talk.mp3", "mp3");
    ExtensionIs("talk.mp3", "mp3");
    LowerMp3();
  }

  /** Extension matching ignores case: `A.MP3` is accepted on both sides. */
  lemma UpperCaseAccepted(size: nat, order: seq<string>)
    requires IsSetOrder(order)
    requires size <= MaxFileSizeBytes
    ensures ValidateAudioFile("A.MP3", size, order) == (true, "")
    ensures Validate("A.MP3", size) == ""
  {
    assert IsFinalSegment("A.MP3", "MP3");
    ExtensionIs("A.MP3", "MP3");
    LowerMp3();
  }

  /** A name without any `.` is its own extension: a file called `mp3` passes. */
  lemma NoDotUsesWholeName(size: nat, order: seq<string>)
    requires IsSetOrder(order)
    requires size <= MaxFileSizeBytes
    ensures ServerRawExtension("mp3") == "mp3"
    ensures ValidateAudioFile("mp3", size, order) == (true, "")
    ensures Validate("mp3", size) == ""
  {
    assert IsFinalSegment("mp3", "mp3");
    FinalSegmentUnique("mp3", ServerRawExtension("mp3"), "mp3");
    ExtensionIs("mp3", "mp3");
    LowerMp3();
  }
}
