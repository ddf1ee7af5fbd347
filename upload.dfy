/**
 * `allowed_file`: a name is accepted when it contains a '.' and the text after
 * the last '.', lower-cased, is one of png, jpg, jpeg, gif.
 */
module Upload {
  import opened Wrappers

  const AllowedExtensions: set<string> := {"png", "jpg", "jpeg", "gif"}

  /** ASCII lower-casing of one character. */
  function LowerChar(ch: char): (r: char)
    ensures 'A' <= ch <= 'Z' ==> 'a' <= r <= 'z' && r as int - ch as int == 32
    ensures !('A' <= ch <= 'Z') ==> r == ch
  {
    if 'A' <= ch <= 'Z' then (ch as int + 32) as char else ch
  }

  /** `str.lower()` on ASCII text. */
  function Lower(s: string): (r: string)
    ensures |r| == |s|
    ensures forall i :: 0 <= i < |s| ==> r[i] == LowerChar(s[i])
  {
    seq(|s|, i requires 0 <= i < |s| => LowerChar(s[i]))
  }

  /** The position `rsplit('.', 1)` splits at: the last '.', if any. */
  function LastDot(name: string): (k: Option<nat>)
    ensures k.None? <==> '.' !in name
    ensures k.Some? ==>
      && k.value < |name| && name[k.value] == '.'
      && forall j :: k.value < j < |name| ==> name[j] != '.'
  {
    if name == [] then None
    else if name[|name| - 1] == '.' then Some(|name| - 1)
    else
      var k := LastDot(name[..|name| - 1]);
      assert name == name[..|name| - 1] + [name[|name| - 1]];
      k
  }

  /** The extension check of the upload handler. */
  function AllowedFile(name: string): bool
  {
    match LastDot(name)
    case None => false
    case Some(k) => Lower(name[k + 1..]) in AllowedExtensions
  }

  /** `allowed_file(name)` holds iff '.' is in name and the lower-cased suffix after the last '.' is allowed. */
  lemma AllowedFileIff(name: string)
    ensures AllowedFile(name) <==>
      '.' in name &&
      exists k :: 0 <= k < |name| && name[k] == '.' &&
        (forall j :: k < j < |name| ==> name[j] != '.') &&
        Lower(name[k + 1..]) in AllowedExtensions
  {
    if AllowedFile(name) {
      var k := LastDot(name).value;
      assert name[k] == '.';
    } else if '.' in name {
      var k := LastDot(name).value;
      forall k' | 0 <= k' < |name| && name[k'] == '.' && (forall j :: k' < j < |name| ==> name[j] != '.')
        ensures Lower(name[k' + 1..]) !in AllowedExtensions
      {
        assert k' == k;
      }
    }
  }

  /** The text before the last '.' plays no part. */
  lemma AllowedSplit(stem: string, ext: string)
    requires '.' !in ext
    ensures AllowedFile(stem + "." + ext) <==> Lower(ext) in AllowedExtensions
  {
    var name := stem + "." + ext;
    var k := |stem|;
    assert name[k] == '.';
    forall j | k < j < |name| ensures name[j] != '.' {
      assert name[j] == ext[j - k - 1];
    }
    assert name[k + 1..] == ext;
    AllowedFileIff(name);
  }

  /** `str.lower()` on the extensions used below. */
  lemma LowerExamples()
    ensures Lower("png") == "png" && Lower("PNG") == "png" && Lower("JpEg") == "jpeg"
    ensures Lower("gif") == "gif" && Lower("exe") == "exe" && Lower("") == ""
  {
  }

  /** The extension is matched without regard to case, whatever comes before it. */
  lemma AcceptedExamples(stem: string)
    ensures AllowedFile(stem + "." + "png") && AllowedFile(stem + "." + "PNG") && AllowedFile(stem + "." + "JpEg")
  {
    LowerExamples();
    AllowedSplit(stem, "png");
    AllowedSplit(stem, "PNG");
    AllowedSplit(stem, "JpEg");
  }

  /**
   * Only the text after the last '.' counts ("a.tar.gif" is accepted,
   * "a.jpg.exe" is not), it may be all there is (".gif"), a trailing '.'
   * leaves an empty extension, and a name without '.' is refused.
   */
  lemma LastDotExamples(stem: string)
    ensures AllowedFile(stem + "." + "gif") && !AllowedFile(stem + "." + "exe") && !AllowedFile(stem + "." + "")
    ensures !AllowedFile("png")
  {
    LowerExamples();
    AllowedSplit(stem, "gif");
    AllowedSplit(stem, "exe");
    AllowedSplit(stem, "");
    assert LastDot("png") == None;
  }
}
