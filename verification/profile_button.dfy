/**
 * The profile button: the avatar letter, the Obsidian sign-in link, the
 * configuration JSON offered for copying, and the menu's handlers. Local
 * storage's "username", "uid" and "token" are parameters (`None` when
 * missing).
 */
module ProfileButton {
  import opened Wrappers
  import opened Strings
  import Percent

  // ---------------------------------------------------------------------------
  // Avatar letter

  /** `name?.charAt(0)?.toUpperCase()`: empty for a missing or empty name. */
  function FirstLetter(name: Option<string>): (r: string)
    ensures name.Some? && name.value != "" ==> r == [UpperChar(name.value[0])]
    ensures name.None? || name.value == "" ==> r == ""
  {
    if name.Some? && name.value != "" then [UpperChar(name.value[0])] else ""
  }

  /** The avatar shows the username's first letter, else the uid's, else "U"; always one character. */
  function AvatarInitial(username: Option<string>, uid: Option<string>): (r: string)
    ensures |r| == 1
    ensures username.Some? && username.value != "" ==> r == [UpperChar(username.value[0])]
    ensures (username.None? || username.value == "") && uid.Some? && uid.value != "" ==> r == [UpperChar(uid.value[0])]
    ensures (username.None? || username.value == "") && (uid.None? || uid.value == "") ==> r == "U"
  {
    var a := FirstLetter(username);
    if a != "" then a else
    var b := FirstLetter(uid);
    if b != "" then b else "U"
  }

  // ---------------------------------------------------------------------------
  // The Obsidian sign-in link

  const SsoPrefix := "obsidian://fast-note-sync/sso?pushApi="
  const TokenParam := "&pushApiToken="

  /** `token || ""`. */
  function TokenOrEmpty(token: Option<string>): string {
    token.GetOr("")
  }

  /** `getObsidianUrl`: the API address and the token, each passed through `encodeURIComponent`. */
  function ObsidianUrl(api: string, token: Option<string>): (r: string)
    ensures StartsWith(r, SsoPrefix)
  {
    SsoPrefix + (Percent.EncodeUriComponent(api) + (TokenParam + Percent.EncodeUriComponent(TokenOrEmpty(token))))
  }

  /** How the plugin reads the link: the two parameters, decoded. */
  function ReadSsoLink(link: string): Option<(string, string)> {
    if !StartsWith(link, SsoPrefix) then None
    else
      var q := link[|SsoPrefix|..];
      if '&' !in q then None
      else
        var i := FirstIndexOf(q, '&');
        var rest := q[i..];
        if !StartsWith(rest, TokenParam) then None
        else
          match (Percent.Decode(Percent.UriComponent, q[..i]), Percent.Decode(Percent.UriComponent, rest[|TokenParam|..]))
          case (Some(a), Some(t)) => Some((a, t))
          case _ => None
  }

  /** The link carries the API address and the token (empty when missing) unchanged. */
  lemma SsoLinkRoundTrip(api: string, token: Option<string>)
    ensures ReadSsoLink(ObsidianUrl(api, token)) == Some((api, TokenOrEmpty(token)))
  {
    var a := Percent.EncodeUriComponent(api);
    var t := Percent.EncodeUriComponent(TokenOrEmpty(token));
    var q := a + (TokenParam + t);
    assert ObsidianUrl(api, token)[|SsoPrefix|..] == q;
    NoAmpersandEncoded(api);
    SplitAtAmpersand(a, t);
    Percent.EncodeRoundTrip(Percent.UriComponent, api);
    Percent.EncodeRoundTrip(Percent.UriComponent, TokenOrEmpty(token));
  }

  /** `encodeURIComponent` escapes every "&". */
  lemma NoAmpersandEncoded(x: string)
    ensures '&' !in Percent.EncodeUriComponent(x)
  {
    var a := Percent.EncodeUriComponent(x);
    forall k | 0 <= k < |a| ensures a[k] != '&' {
      assert Percent.Safe(a[k]);
    }
  }

  /** The query splits at the "&" that starts the token parameter. */
  lemma SplitAtAmpersand(a: string, t: string)
    requires '&' !in a
    ensures var q := a + (TokenParam + t);
      '&' in q && FirstIndexOf(q, '&') == |a| && q[..|a|] == a &&
      StartsWith(q[|a|..], TokenParam) && q[|a|..][|TokenParam|..] == t
  {
    var q := a + (TokenParam + t);
    assert q[|a|] == '&';
    assert q[..|a|] == a;
    FirstIndexOfIs(q, '&', |a|);
    assert q[|a|..] == TokenParam + t;
    assert (TokenParam + t)[|TokenParam|..] == t;
  }

  // ---------------------------------------------------------------------------
  // The configuration JSON

  const LowerHexDigits: string := "0123456789abcdef"

  /** One character as `JSON.stringify` writes it inside a string literal. */
  function EscapeChar(c: char): (r: string)
    ensures r != [] && (r[0] == '\\' <==> c == '"' || c == '\\' || (c as int) < 0x20)
  {
    if c == '"' then "\\\""
    else if c == '\\' then "\\\\"
    else if c == '\U{8}' then "\\b"
    else if c == '\t' then "\\t"
    else if c == '\n' then "\\n"
    else if c == '\U{C}' then "\\f"
    else if c == '\r' then "\\r"
    else if (c as int) < 0x20 then "\\u00" + [LowerHexDigits[c as int / 16], LowerHexDigits[c as int % 16]]
    else [c]
  }

  /** The body of a JSON string literal. */
  function Escape(s: string): string {
    if s == [] then "" else EscapeChar(s[0]) + Escape(s[1..])
  }

  function Cons(c: char, r: Option<(string, string)>): Option<(string, string)> {
    match r
    case None => None
    case Some((s, rest)) => Some(([c] + s, rest))
  }

  /** The value of the escape `\e` for the single-letter escapes of JSON. */
  function SimpleEscape(e: char): Option<char> {
    if e == '"' then Some('"')
    else if e == '\\' then Some('\\')
    else if e == '/' then Some('/')
    else if e == 'b' then Some('\U{8}')
    else if e == 'f' then Some('\U{C}')
    else if e == 'n' then Some('\n')
    else if e == 'r' then Some('\r')
    else if e == 't' then Some('\t')
    else None
  }

  /** The value of four hex digits, if they are four hex digits. */
  function Hex4(t: string): Option<nat>
    requires |t| == 4
  {
    match (Percent.HexValue(t[0]), Percent.HexValue(t[1]), Percent.HexValue(t[2]), Percent.HexValue(t[3]))
    case (Some(a), Some(b), Some(c), Some(d)) => Some(((a * 16 + b) * 16 + c) * 16 + d)
    case _ => None
  }

  /**
   * A JSON reader for the rest of a string literal: the characters up to the
   * closing quote, and what follows it. `None` for a raw control character, a
   * bad escape or a missing closing quote.
   */
  function ReadString(t: string): Option<(string, string)>
    decreases |t|
  {
    if t == [] then None
    else if t[0] == '"' then Some(("", t[1..]))
    else if t[0] == '\\' then
      if |t| < 2 then None
      else if SimpleEscape(t[1]).Some? then Cons(SimpleEscape(t[1]).value, ReadString(t[2..]))
      else if t[1] == 'u' && |t| >= 6 && Hex4(t[2..6]).Some? && (Hex4(t[2..6]).value < 0xD800 || 0xE000 <= Hex4(t[2..6]).value < 0x11_0000) then
        Cons(Hex4(t[2..6]).value as char, ReadString(t[6..]))
      else None
    else if (t[0] as int) < 0x20 then None
    else Cons(t[0], ReadString(t[1..]))
  }

  lemma ReadEscapedChar(c: char, more: string)
    ensures ReadString(EscapeChar(c) + more) == Cons(c, ReadString(more))
  {
    if c == '"' || c == '\\' || c == '\U{8}' || c == '\t' || c == '\n' || c == '\U{C}' || c == '\r' {
      ReadShortEscape(c, more);
    } else if (c as int) < 0x20 {
      ReadUnicodeEscape(c, more);
    } else {
      var t := EscapeChar(c) + more;
      assert t[0] == c && t[1..] == more;
    }
  }

  /** A character JSON writes as a backslash and a letter. */
  lemma ReadShortEscape(c: char, more: string)
    requires c == '"' || c == '\\' || c == '\U{8}' || c == '\t' || c == '\n' || c == '\U{C}' || c == '\r'
    ensures ReadString(EscapeChar(c) + more) == Cons(c, ReadString(more))
  {
    var t := EscapeChar(c) + more;
    assert t[0] == '\\' && SimpleEscape(t[1]) == Some(c);
    assert t[2..] == more;
  }

  /** A control character JSON writes as `\u00` and two lower-case hex digits. */
  lemma ReadUnicodeEscape(c: char, more: string)
    requires (c as int) < 0x20
    requires !(c == '"' || c == '\\' || c == '\U{8}' || c == '\t' || c == '\n' || c == '\U{C}' || c == '\r')
    ensures ReadString(EscapeChar(c) + more) == Cons(c, ReadString(more))
  {
    var t := EscapeChar(c) + more;
    var hi, lo := c as int / 16, c as int % 16;
    assert t[0] == '\\' && t[1] == 'u' && SimpleEscape(t[1]).None?;
    assert t[2..6] == ['0', '0', LowerHexDigits[hi], LowerHexDigits[lo]];
    assert Percent.HexValue(LowerHexDigits[hi]) == Some(hi);
    assert Percent.HexValue(LowerHexDigits[lo]) == Some(lo);
    assert Hex4(t[2..6]) == Some(c as int);
    assert t[6..] == more;
  }

  /** Reading an escaped string followed by the closing quote gives the string back and stops at the quote. */
  lemma {:induction false} ReadEscaped(s: string, rest: string)
    ensures ReadString(Escape(s) + ("\"" + rest)) == Some((s, rest))
    decreases |s|
  {
    if s == [] {
      assert Escape(s) + ("\"" + rest) == "\"" + rest;
    } else {
      var u := Escape(s[1..]) + ("\"" + rest);
      ReadEscaped(s[1..], rest);
      assert ReadString(u) == Some((s[1..], rest));
      assert Escape(s) == EscapeChar(s[0]) + Escape(s[1..]);
      AppendAssoc(EscapeChar(s[0]), Escape(s[1..]), "\"" + rest);
      ReadEscapedChar(s[0], u);
      assert Cons(s[0], Some((s[1..], rest))) == Some(([s[0]] + s[1..], rest));
      assert [s[0]] + s[1..] == s;
    }
  }

  lemma AppendAssoc(a: string, b: string, c: string)
    ensures (a + b) + c == a + (b + c)
  {
  }

  const ConfigHead := "{\n  \"api\": \""
  const ConfigMiddle := ",\n  \"apiToken\": \""
  const ConfigEnd := "\n}"

  /**
   * `getConfigJson`: `JSON.stringify({ api, apiToken }, null, 2)`, a
   * two-space indented object with exactly these two keys, the token being
   * "" when missing.
   */
  function ConfigJson(api: string, token: Option<string>): string {
    ConfigHead + (Escape(api) + ("\"" + (ConfigMiddle + (Escape(TokenOrEmpty(token)) + ("\"" + ConfigEnd)))))
  }

  /** Reads a configuration of exactly that layout back into its two values. */
  function ReadConfigJson(text: string): Option<(string, string)> {
    if !StartsWith(text, ConfigHead) then None
    else
      match ReadString(text[|ConfigHead|..])
      case None => None
      case Some((api, rest)) =>
        if !StartsWith(rest, ConfigMiddle) then None
        else
          match ReadString(rest[|ConfigMiddle|..])
          case None => None
          case Some((token, tail)) => if tail == ConfigEnd then Some((api, token)) else None
  }

  /** The copied configuration holds the API address and the token (empty when missing), and nothing after them. */
  lemma ConfigJsonRoundTrip(api: string, token: Option<string>)
    ensures ReadConfigJson(ConfigJson(api, token)) == Some((api, TokenOrEmpty(token)))
  {
    var tok := TokenOrEmpty(token);
    var after := ConfigMiddle + (Escape(tok) + ("\"" + ConfigEnd));
    var text := ConfigJson(api, token);
    assert text[|ConfigHead|..] == Escape(api) + ("\"" + after);
    ReadEscaped(api, after);
    assert after[|ConfigMiddle|..] == Escape(tok) + ("\"" + ConfigEnd);
    ReadEscaped(tok, ConfigEnd);
  }

  // ---------------------------------------------------------------------------
  // The menu

  /** What the menu's handlers do, in order. */
  datatype Effect = MenuClosed | LogoutCalled | ConfigModalOpened

  class Menu {
    var open: bool
    var configModalOpen: bool
    var configModalIsError: bool
    var changePasswordOpen: bool
    var effects: seq<Effect>

    constructor ()
      ensures !open && !configModalOpen && !configModalIsError && !changePasswordOpen && effects == []
    {
      open := false;
      configModalOpen := false;
      configModalIsError := false;
      changePasswordOpen := false;
      effects := [];
    }

    /** `handleLogout`: the menu is closed first, then `onLogout` is called. */
    method HandleLogout()
      modifies this
      ensures !open && effects == old(effects) + [MenuClosed, LogoutCalled]
      ensures configModalOpen == old(configModalOpen) && configModalIsError == old(configModalIsError)
      ensures changePasswordOpen == old(changePasswordOpen)
    {
      open := false;
      effects := effects + [MenuClosed];
      effects := effects + [LogoutCalled];
    }

    /** `handleCopyConfig`: the configuration dialog opens without an error and the menu closes. */
    method HandleCopyConfig()
      modifies this
      ensures configModalOpen && !configModalIsError && !open
      ensures effects == old(effects) + [ConfigModalOpened, MenuClosed]
      ensures changePasswordOpen == old(changePasswordOpen)
    {
      configModalIsError := false;
      configModalOpen := true;
      effects := effects + [ConfigModalOpened];
      open := false;
      effects := effects + [MenuClosed];
    }
  }
}
