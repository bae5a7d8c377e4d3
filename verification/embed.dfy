/**
 * The Obsidian embed transformer of the note editor: every `![[target|meta]]`
 * marker in a note is replaced by a Markdown link, a Markdown image or an
 * `<img>` tag pointing at the server's file endpoint.
 *
 * The global regular-expression replace is modelled in two steps: `Scan`
 * cuts the note into plain characters and markers exactly as the regex
 * engine walks it (leftmost match, failed positions advance by one, matched
 * text is not looked at again), and `Transform` rewrites each piece.
 */
module MarkdownEmbed {
  import opened Wrappers
  import opened Strings
  import Percent

  // ---------------------------------------------------------------------------
  // Finding the markers

  /** A note cut into pieces: a character left as it is, or a marker with its inner text. */
  datatype Piece = Text(c: char) | Marker(inner: string)

  const Open: string := "![["
  const Close: string := "]]"

  /** The whole text of a marker with this inner text. */
  function MarkerText(inner: string): string {
    Open + inner + Close
  }

  /**
   * Whether the pattern `!\[\[([^\]]+)\]\]` matches at the start of `s`, and
   * if so the length of the captured inner text. The inner run cannot
   * contain `]`, so it must end at the first `]` after `![[`, and the next
   * character must be `]` as well.
   */
  function MatchAt(s: string): (r: Option<nat>)
    ensures r.Some? ==> 0 < r.value && 5 + r.value <= |s|
    ensures r.Some? ==> s[..5 + r.value] == MarkerText(s[3..3 + r.value])
    ensures r.Some? ==> ']' !in s[3..3 + r.value]
  {
    if StartsWith(s, Open) && ']' in s[3..] then
      var j := FirstIndexOf(s[3..], ']');
      if 0 < j && 3 + j + 1 < |s| && s[3 + j + 1] == ']' then
        assert s[3..][..j] == s[3..3 + j];
        assert s[..5 + j] == s[..3] + s[3..3 + j] + s[3 + j..5 + j];
        Some(j)
      else None
    else None
  }

  /** The marker text of any well-formed inner text is matched, with exactly that inner text. */
  lemma MatchAtMarker(inner: string, rest: string)
    requires inner != [] && ']' !in inner
    ensures MatchAt(MarkerText(inner) + rest) == Some(|inner|)
  {
    var s := MarkerText(inner) + rest;
    assert s[3..] == inner + "]]" + rest;
    assert s[3..][|inner|] == ']';
    assert s[3..][..|inner|] == inner;
    assert FirstIndexOf(s[3..], ']') == |inner|;
  }

  /** The regex engine's walk over the note, from left to right. */
  function Scan(s: string): (r: seq<Piece>)
    ensures forall k :: 0 <= k < |r| && r[k].Marker? ==> r[k].inner != [] && ']' !in r[k].inner
    decreases |s|
  {
    if s == [] then []
    else
      match MatchAt(s)
      case Some(n) => [Marker(s[3..3 + n])] + Scan(s[5 + n..])
      case None => [Text(s[0])] + Scan(s[1..])
  }

  /** The text a piece stands for. */
  function PieceText(p: Piece): string {
    match p
    case Text(c) => [c]
    case Marker(inner) => MarkerText(inner)
  }

  function Render(ps: seq<Piece>): string {
    if ps == [] then "" else PieceText(ps[0]) + Render(ps[1..])
  }

  /** The pieces cover the note exactly, in order, without overlap. */
  lemma {:induction false} RenderScan(s: string)
    ensures Render(Scan(s)) == s
    decreases |s|
  {
    if s != [] {
      match MatchAt(s)
      case Some(n) =>
        RenderScan(s[5 + n..]);
        assert s == s[..5 + n] + s[5 + n..];
      case None =>
        RenderScan(s[1..]);
        assert s == [s[0]] + s[1..];
    }
  }

  /**
   * After a complete marker, scanning goes on with the text that follows it:
   * a marker is taken once, as a whole, and nothing it is replaced by is
   * scanned again.
   */
  lemma ScanMarkerFirst(inner: string, rest: string)
    requires inner != [] && ']' !in inner
    ensures Scan(MarkerText(inner) + rest) == [Marker(inner)] + Scan(rest)
  {
    var s := MarkerText(inner) + rest;
    MatchAtMarker(inner, rest);
    assert s[3..3 + |inner|] == inner;
    assert s[5 + |inner|..] == rest;
  }

  /** Text without the opening `![[` holds no marker at all. */
  lemma {:induction false} ScanNoOpen(s: string)
    requires !Contains(s, Open)
    ensures forall k :: 0 <= k < |Scan(s)| ==> Scan(s)[k].Text?
    decreases |s|
  {
    if s != [] {
      if StartsWith(s, Open) {
        assert OccursAt(s, Open, 0);
        assert false;
      }
      if Contains(s[1..], Open) {
        var i :| 0 <= i <= |s[1..]| - |Open| && OccursAt(s[1..], Open, i);
        assert OccursAt(s[1..], Open, i);
        assert s[1..][i..i + 3] == s[i + 1..i + 1 + 3];
        assert OccursAt(s, Open, i + 1);
        assert false;
      }
      ScanNoOpen(s[1..]);
    }
  }

  // ---------------------------------------------------------------------------
  // Reading a marker's inner text

  /**
   * The inner text split on `|`: the target (the first piece) and the meta
   * pieces after it.
   */
  function Target(inner: string): string {
    Split(inner, '|')[0]
  }

  function Meta(inner: string): seq<string> {
    Split(inner, '|')[1..]
  }

  /** The raw path: the target up to its first `#`, trimmed. */
  function RawPath(inner: string): (r: string)
    ensures '#' !in r
    ensures r == [] || (!IsJsSpace(r[0]) && !IsJsSpace(r[|r| - 1]))
  {
    var p := Split(Target(inner), '#')[0];
    TrimKeepsOut(p, '#');
    Trim(p)
  }

  /** For a target without `|`, `#` or surrounding whitespace, the raw path is the target itself. */
  lemma RawPathOfPlainTarget(path: string, rest: string)
    requires '|' !in path && '#' !in path
    requires path == [] || (!IsJsSpace(path[0]) && !IsJsSpace(path[|path| - 1]))
    ensures RawPath(path + "|" + rest) == path
    ensures Meta(path + "|" + rest) == Split(rest, '|')
  {
    var a := path + "|" + rest;
    assert a[|path|] == '|' && a[..|path|] == path;
    assert FirstIndexOf(a, '|') == |path|;
    assert a[|path| + 1..] == rest;
    assert Split(a, '|') == [path] + Split(rest, '|');
    assert Split(path, '#') == [path];
    TrimNoSpace(path);
  }

  /** The path the marker names: the link map's entry when it is present and non-empty, else the raw path. */
  function Resolve(links: map<string, string>, rawPath: string): (r: string)
    ensures rawPath != "" ==> r != ""
    ensures r == rawPath || (rawPath in links && r == links[rawPath])
    ensures rawPath in links && links[rawPath] != "" ==> r == links[rawPath]
  {
    if rawPath in links && links[rawPath] != "" then links[rawPath] else rawPath
  }

  // ---------------------------------------------------------------------------
  // Attachment kinds

  datatype Kind = Image | Video | Audio | File

  const ImageExtensions: seq<string> := ["png", "jpg", "jpeg", "gif", "svg", "webp", "bmp"]
  const VideoExtensions: seq<string> := ["mp4", "webm", "mov", "mkv", "avi", "ogv"]
  const AudioExtensions: seq<string> := ["mp3", "wav", "ogg", "m4a", "flac", "aac"]

  /** `path` ends in `.` followed by one of `exts`. */
  predicate HasExtension(path: string, exts: seq<string>) {
    exists k :: 0 <= k < |exts| && EndsWith(path, "." + exts[k])
  }

  /**
   * The attachment kind of a path, by its extension regardless of letter
   * case; image is checked first, then video, then audio.
   */
  function Classify(path: string): Kind {
    var p := Lower(path);
    if HasExtension(p, ImageExtensions) then Image
    else if HasExtension(p, VideoExtensions) then Video
    else if HasExtension(p, AudioExtensions) then Audio
    else File
  }

  /** Letter case does not matter: a path and its lower-case form have the same kind. */
  lemma ClassifyIgnoresCase(path: string)
    ensures Classify(Lower(path)) == Classify(path)
  {
    LowerIdempotent(path);
  }

  /** A suffix `.x` of `stem.v` is `.v` itself when neither `x` nor `v` holds a dot. */
  lemma DotSuffixUnique(stem: string, v: string, x: string)
    requires '.' !in v && '.' !in x
    requires EndsWith(stem + "." + v, "." + x)
    ensures x == v
  {
    var s := stem + "." + v;
    var n := |s|;
    assert s[n - |v|..] == v && s[n - |v| - 1] == '.';
    assert s[n - |x| - 1..] == "." + x;
    assert s[n - |x|..] == x && s[n - |x| - 1] == '.';
    assert forall i :: n - |v| <= i < n ==> s[i] == v[i - (n - |v|)];
    assert forall i :: n - |x| <= i < n ==> s[i] == x[i - (n - |x|)];
    assert |x| == |v|;
  }

  predicate NoDots(exts: seq<string>) {
    forall k :: 0 <= k < |exts| ==> '.' !in exts[k]
  }

  /** Among dot-free extensions, `stem.v` has extension `x` exactly when `x` is `v`. */
  lemma HasExtensionExactly(stem: string, v: string, exts: seq<string>)
    requires '.' !in v && NoDots(exts)
    ensures HasExtension(stem + "." + v, exts) <==> v in exts
  {
    if HasExtension(stem + "." + v, exts) {
      var k :| 0 <= k < |exts| && EndsWith(stem + "." + v, "." + exts[k]);
      DotSuffixUnique(stem, v, exts[k]);
    }
    if v in exts {
      var k :| 0 <= k < |exts| && exts[k] == v;
      var s := stem + "." + v;
      assert s[|s| - |"." + v|..] == "." + v;
      assert EndsWith(s, "." + exts[k]);
    }
  }

  /** Lower-casing a path leaves an already lower-case extension as it is. */
  lemma LowerWithExtension(stem: string, ext: string)
    requires Lower(ext) == ext
    ensures Lower(stem + "." + ext) == Lower(stem) + "." + ext
  {
    assert Lower(".") == ".";
    LowerAppend(stem, ".");
    LowerAppend(stem + ".", ext);
  }

  predicate LowerAlnum(e: string) {
    forall i :: 0 <= i < |e| ==> ('a' <= e[i] <= 'z') || ('0' <= e[i] <= '9')
  }

  lemma ExtensionsLowerCase(ext: string)
    requires ext in ImageExtensions + VideoExtensions + AudioExtensions
    ensures Lower(ext) == ext && '.' !in ext
  {
    assert LowerAlnum(ext);
    assert forall i :: 0 <= i < |ext| ==> LowerChar(ext[i]) == ext[i];
  }

  lemma ExtensionListsDotFree()
    ensures NoDots(ImageExtensions) && NoDots(VideoExtensions) && NoDots(AudioExtensions)
  {
  }

  /** No extension is in two lists. */
  lemma ExtensionListsDisjoint(ext: string)
    ensures ext in VideoExtensions ==> ext !in ImageExtensions
    ensures ext in AudioExtensions ==> ext !in ImageExtensions && ext !in VideoExtensions
  {
  }

  /**
   * Every listed extension gives its own kind, after any stem and in any
   * letter case: the three lists are disjoint, so testing image, then video,
   * then audio never hides one.
   */
  lemma KindOfExtension(stem: string, ext: string)
    requires ext in ImageExtensions + VideoExtensions + AudioExtensions
    ensures ext in ImageExtensions ==> Classify(stem + "." + ext) == Image
    ensures ext in VideoExtensions ==> Classify(stem + "." + ext) == Video
    ensures ext in AudioExtensions ==> Classify(stem + "." + ext) == Audio
  {
    ExtensionsLowerCase(ext);
    ExtensionListsDotFree();
    ExtensionListsDisjoint(ext);
    LowerWithExtension(stem, ext);
    var l := Lower(stem);
    HasExtensionExactly(l, ext, ImageExtensions);
    HasExtensionExactly(l, ext, VideoExtensions);
    HasExtensionExactly(l, ext, AudioExtensions);
  }

  /** `.ogg` is audio but `.ogv` is video. */
  lemma OggIsAudio(stem: string)
    ensures Classify(stem + ".ogg") == Audio
    ensures Classify(stem + ".ogv") == Video
  {
    OggAudio(stem);
    OgvVideo(stem);
  }

  lemma OggAudio(stem: string)
    ensures Classify(stem + ".ogg") == Audio
  {
    assert AudioExtensions[2] == "ogg";
    assert (ImageExtensions + VideoExtensions + AudioExtensions)[15] == "ogg";
    KindOfExtension(stem, "ogg");
    assert stem + "." + "ogg" == stem + ".ogg";
  }

  lemma OgvVideo(stem: string)
    ensures Classify(stem + ".ogv") == Video
  {
    assert VideoExtensions[5] == "ogv";
    assert (ImageExtensions + VideoExtensions + AudioExtensions)[12] == "ogv";
    KindOfExtension(stem, "ogv");
    assert stem + "." + "ogv" == stem + ".ogv";
  }

  /** A path with no listed extension is a plain file. */
  lemma UnknownIsFile(path: string)
    requires !HasExtension(Lower(path), ImageExtensions + VideoExtensions + AudioExtensions)
    ensures Classify(path) == File
  {
    var p := Lower(path);
    HasExtensionConcat(p, ImageExtensions, VideoExtensions);
    HasExtensionConcat(p, ImageExtensions + VideoExtensions, AudioExtensions);
  }

  lemma HasExtensionConcat(p: string, a: seq<string>, b: seq<string>)
    ensures HasExtension(p, a + b) <==> HasExtension(p, a) || HasExtension(p, b)
  {
    if HasExtension(p, a) {
      var k :| 0 <= k < |a| && EndsWith(p, "." + a[k]);
      assert (a + b)[k] == a[k];
    }
    if HasExtension(p, b) {
      var k :| 0 <= k < |b| && EndsWith(p, "." + b[k]);
      assert (a + b)[|a| + k] == b[k];
    }
    if HasExtension(p, a + b) {
      var k :| 0 <= k < |a + b| && EndsWith(p, "." + (a + b)[k]);
      if k < |a| {
        assert (a + b)[k] == a[k];
      } else {
        assert (a + b)[k] == b[k - |a|];
      }
    }
  }

  // ---------------------------------------------------------------------------
  // Markdown escaping of the display text

  const Specials: string := "\\[]()"

  /** `s` with every occurrence of `c` replaced by `by`. */
  function ReplaceAll(s: string, c: char, rep: string): (r: string)
    ensures c !in rep ==> c !in r
  {
    if s == [] then "" else (if s[0] == c then rep else [s[0]]) + ReplaceAll(s[1..], c, rep)
  }

  lemma {:induction false} ReplaceAllAppend(a: string, b: string, c: char, rep: string)
    ensures ReplaceAll(a + b, c, rep) == ReplaceAll(a, c, rep) + ReplaceAll(b, c, rep)
  {
    if a == [] {
      assert a + b == b;
    } else {
      assert (a + b)[0] == a[0] && (a + b)[1..] == a[1..] + b;
      ReplaceAllAppend(a[1..], b, c, rep);
    }
  }

  /**
   * The display-text escaper: the five replacements in their order,
   * backslash first so that the backslashes the later ones insert are not
   * doubled.
   */
  function EscapeMarkdown(s: string): string {
    var a := ReplaceAll(s, '\\', "\\\\");
    var b := ReplaceAll(a, '[', "\\[");
    var c := ReplaceAll(b, ']', "\\]");
    var d := ReplaceAll(c, '(', "\\(");
    ReplaceAll(d, ')', "\\)")
  }

  /** A reference definition of the escaper: one pass, a backslash before each special character. */
  function EscapeChars(s: string): string {
    if s == [] then "" else (if s[0] in Specials then ['\\', s[0]] else [s[0]]) + EscapeChars(s[1..])
  }

  lemma EscapeMarkdownOne(c: char)
    ensures EscapeMarkdown([c]) == if c in Specials then ['\\', c] else [c]
  {
    assert [c][1..] == [];
    if c == '\\' {
      assert ReplaceAll([c], '\\', "\\\\") == "\\\\";
    } else {
      assert ReplaceAll([c], '\\', "\\\\") == [c];
    }
  }

  lemma EscapeMarkdownAppend(a: string, b: string)
    ensures EscapeMarkdown(a + b) == EscapeMarkdown(a) + EscapeMarkdown(b)
  {
    ReplaceAllAppend(a, b, '\\', "\\\\");
    var a1, b1 := ReplaceAll(a, '\\', "\\\\"), ReplaceAll(b, '\\', "\\\\");
    ReplaceAllAppend(a1, b1, '[', "\\[");
    var a2, b2 := ReplaceAll(a1, '[', "\\["), ReplaceAll(b1, '[', "\\[");
    ReplaceAllAppend(a2, b2, ']', "\\]");
    var a3, b3 := ReplaceAll(a2, ']', "\\]"), ReplaceAll(b2, ']', "\\]");
    ReplaceAllAppend(a3, b3, '(', "\\(");
    var a4, b4 := ReplaceAll(a3, '(', "\\("), ReplaceAll(b3, '(', "\\(");
    ReplaceAllAppend(a4, b4, ')', "\\)");
  }

  /** The chain of five replacements is the one-pass escaper. */
  lemma {:induction false} EscapeMarkdownIsEscapeChars(s: string)
    ensures EscapeMarkdown(s) == EscapeChars(s)
  {
    if s != [] {
      EscapeMarkdownIsEscapeChars(s[1..]);
      EscapeMarkdownAppend([s[0]], s[1..]);
      EscapeMarkdownOne(s[0]);
      assert [s[0]] + s[1..] == s;
    }
  }

  /** Drop the backslash in front of each escaped character. */
  function UnescapeMarkdown(s: string): string
    decreases |s|
  {
    if s == [] then ""
    else if s[0] == '\\' && |s| >= 2 then [s[1]] + UnescapeMarkdown(s[2..])
    else [s[0]] + UnescapeMarkdown(s[1..])
  }

  lemma {:induction false} EscapeCharsRoundTrip(s: string)
    ensures UnescapeMarkdown(EscapeChars(s)) == s
  {
    if s != [] {
      EscapeCharsRoundTrip(s[1..]);
      var e := EscapeChars(s);
      if s[0] in Specials {
        assert e[2..] == EscapeChars(s[1..]);
      } else {
        assert e[1..] == EscapeChars(s[1..]);
      }
      assert [s[0]] + s[1..] == s;
    }
  }

  /** Removing one backslash before each escaped character recovers the text. */
  lemma EscapeRoundTrip(s: string)
    ensures UnescapeMarkdown(EscapeMarkdown(s)) == s
  {
    EscapeMarkdownIsEscapeChars(s);
    EscapeCharsRoundTrip(s);
  }

  /**
   * The link text: the first meta piece when it is non-empty, else the raw
   * path, trimmed and escaped.
   */
  function DisplayName(meta: seq<string>, rawPath: string): (r: string)
    ensures UnescapeMarkdown(r) == Trim(if meta != [] && meta[0] != "" then meta[0] else rawPath)
  {
    var t := Trim(if meta != [] && meta[0] != "" then meta[0] else rawPath);
    EscapeRoundTrip(t);
    EscapeMarkdown(t)
  }

  /** The width of `![[image|width]]`: the first meta piece when it is made only of ASCII digits. */
  function Width(meta: seq<string>): (r: Option<string>)
    ensures r.Some? <==> meta != [] && meta[0] != [] && AllDigits(meta[0])
    ensures r.Some? ==> r.value == meta[0]
  {
    if meta != [] && meta[0] != [] && AllDigits(meta[0]) then Some(meta[0]) else None
  }

  // ---------------------------------------------------------------------------
  // The file URL

  /** `${API_URL}/api/file?` followed by the form-encoded vault, path and token. */
  function FileApiUrl(api: string, vault: string, path: string, token: string): (r: string)
    ensures StartsWith(r, api + "/api/file?")
    ensures Percent.Parse(r[|api| + 10..]) == Some([("vault", vault), ("path", path), ("token", token)])
  {
    var q := Percent.Serialize([("vault", vault), ("path", path), ("token", token)]);
    var r := api + "/api/file?" + q;
    assert |"/api/file?"| == 10;
    assert r[..|api| + 10] == api + "/api/file?";
    assert r[|api| + 10..] == q;
    Percent.SerializeParseRoundTrip([("vault", vault), ("path", path), ("token", token)]);
    r
  }

  // ---------------------------------------------------------------------------
  // Rewriting

  /** What the transformer needs besides the note: server address, vault, link map and token. */
  datatype Context = Context(api: string, vault: string, links: map<string, string>, token: string)

  /** The replacement text for an attachment of a given kind. */
  function Emit(kind: Kind, width: Option<string>, display: string, url: string, rawPath: string): string {
    match kind
    case Image =>
      if width.Some? then "<img src=\"" + url + "\" alt=\"" + rawPath + "\" width=\"" + width.value + "\" />"
      else "![" + display + "](" + url + ")"
    case Video => "[\U{1F3AC} " + display + "](" + url + ")"
    case Audio => "[\U{1F3B5} " + display + "](" + url + ")"
    case File => "[\U{1F4CE} " + display + "](" + url + ")"
  }

  /** The text a marker with this inner text is replaced by. */
  function Rewrite(ctx: Context, inner: string): string {
    var rawPath := RawPath(inner);
    if rawPath == "" then MarkerText(inner)
    else
      var meta := Meta(inner);
      var path := Resolve(ctx.links, rawPath);
      Emit(Classify(path), Width(meta), DisplayName(meta, rawPath), FileApiUrl(ctx.api, ctx.vault, path, ctx.token), rawPath)
  }

  lemma RewriteUnfold(ctx: Context, inner: string)
    requires RawPath(inner) != ""
    ensures Rewrite(ctx, inner) == Emit(Classify(Resolve(ctx.links, RawPath(inner))), Width(Meta(inner)),
      DisplayName(Meta(inner), RawPath(inner)), FileApiUrl(ctx.api, ctx.vault, Resolve(ctx.links, RawPath(inner)), ctx.token), RawPath(inner))
  {
  }

  function RewritePiece(ctx: Context, p: Piece): string {
    match p
    case Text(c) => [c]
    case Marker(inner) => Rewrite(ctx, inner)
  }

  function RewriteAll(ctx: Context, ps: seq<Piece>): string {
    if ps == [] then "" else RewritePiece(ctx, ps[0]) + RewriteAll(ctx, ps[1..])
  }

  /** The transformer: an empty note is returned as is, otherwise every marker is rewritten. */
  function Transform(content: string, ctx: Context): string {
    if content == "" then content else RewriteAll(ctx, Scan(content))
  }

  lemma TransformIsRewriteAll(content: string, ctx: Context)
    ensures Transform(content, ctx) == RewriteAll(ctx, Scan(content))
  {
  }

  /** A note without `![[` comes back unchanged. */
  lemma NoMarkerUnchanged(content: string, ctx: Context)
    requires !Contains(content, Open)
    ensures Transform(content, ctx) == content
  {
    ScanNoOpen(content);
    TextOnlyRewrite(ctx, Scan(content));
    RenderScan(content);
  }

  lemma {:induction false} TextOnlyRewrite(ctx: Context, ps: seq<Piece>)
    requires forall k :: 0 <= k < |ps| ==> ps[k].Text?
    ensures RewriteAll(ctx, ps) == Render(ps)
  {
    if ps != [] {
      TextOnlyRewrite(ctx, ps[1..]);
    }
  }

  /**
   * Markers are rewritten one after another from the left: a note that begins
   * with a marker becomes that marker's replacement followed by the
   * transformed remainder.
   */
  lemma TransformMarkerFirst(ctx: Context, inner: string, rest: string)
    requires inner != [] && ']' !in inner
    ensures Transform(MarkerText(inner) + rest, ctx) == Rewrite(ctx, inner) + Transform(rest, ctx)
  {
    ScanMarkerFirst(inner, rest);
    var ps := Scan(MarkerText(inner) + rest);
    assert ps[0] == Marker(inner) && ps[1..] == Scan(rest);
    assert RewriteAll(ctx, ps) == RewritePiece(ctx, Marker(inner)) + RewriteAll(ctx, Scan(rest));
    TransformIsRewriteAll(rest, ctx);
  }

  /** A marker whose path is empty once `#` and whitespace are dropped is kept verbatim. */
  lemma EmptyPathKept(ctx: Context, inner: string, rest: string)
    requires inner != [] && ']' !in inner && RawPath(inner) == ""
    ensures Transform(MarkerText(inner) + rest, ctx) == MarkerText(inner) + Transform(rest, ctx)
  {
    TransformMarkerFirst(ctx, inner, rest);
  }

  /** An image with a numeric width becomes an `<img>` tag whose alt text is the raw path. */
  lemma ImageWithWidth(ctx: Context, path: string, width: string)
    requires path != [] && '|' !in path && '#' !in path && !IsJsSpace(path[0]) && !IsJsSpace(path[|path| - 1])
    requires width != [] && AllDigits(width) && '|' !in width
    requires Classify(Resolve(ctx.links, path)) == Image
    ensures Rewrite(ctx, path + "|" + width) ==
      "<img src=\"" + FileApiUrl(ctx.api, ctx.vault, Resolve(ctx.links, path), ctx.token)
      + "\" alt=\"" + path + "\" width=\"" + width + "\" />"
  {
    RawPathOfPlainTarget(path, width);
    assert Split(width, '|') == [width];
    assert Width([width]) == Some(width);
  }

  /** An unknown extension gives a paperclip link whose text is the escaped path. */
  lemma PlainFileLink(ctx: Context, path: string)
    requires path != [] && '|' !in path && '#' !in path && !IsJsSpace(path[0]) && !IsJsSpace(path[|path| - 1])
    requires Classify(Resolve(ctx.links, path)) == File
    ensures Rewrite(ctx, path) ==
      "[\U{1F4CE} " + EscapeMarkdown(path) + "](" + FileApiUrl(ctx.api, ctx.vault, Resolve(ctx.links, path), ctx.token) + ")"
  {
    var url := FileApiUrl(ctx.api, ctx.vault, Resolve(ctx.links, path), ctx.token);
    PlainTarget(path);
    PlainDisplayName(path);
    RewritePlain(ctx, path);
    EmitFile(None, EscapeMarkdown(path), url, path);
  }

  lemma EmitFile(width: Option<string>, display: string, url: string, rawPath: string)
    ensures Emit(File, width, display, url, rawPath) == "[\U{1F4CE} " + display + "](" + url + ")"
  {
  }

  /** A target without `|`, `#` or surrounding whitespace is its own raw path and has no meta pieces. */
  lemma PlainTarget(path: string)
    requires '|' !in path && '#' !in path
    requires path == [] || (!IsJsSpace(path[0]) && !IsJsSpace(path[|path| - 1]))
    ensures RawPath(path) == path && Meta(path) == []
  {
    SplitNone(path, '|');
    assert Target(path) == path;
    SplitNone(path, '#');
    TrimNoSpace(path);
  }

  lemma PlainDisplayName(path: string)
    requires path == [] || (!IsJsSpace(path[0]) && !IsJsSpace(path[|path| - 1]))
    ensures DisplayName([], path) == EscapeMarkdown(path)
  {
    TrimNoSpace(path);
  }

  lemma RewritePlain(ctx: Context, path: string)
    requires path != [] && RawPath(path) == path && Meta(path) == []
    ensures Rewrite(ctx, path) ==
      Emit(Classify(Resolve(ctx.links, path)), None, DisplayName([], path), FileApiUrl(ctx.api, ctx.vault, Resolve(ctx.links, path), ctx.token), path)
  {
    RewriteUnfold(ctx, path);
  }
}
