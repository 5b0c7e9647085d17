/** The key builders of the canonical state, and why different things never share a key. */
module StateKeys {
  import opened GoText
  import opened Wrappers

  // ---------- Percent-encoding of one path segment (section 2.1 of RFC 3986) ----------

  predicate Kept(c: Byte) {
    'a' <= c <= 'z' || 'A' <= c <= 'Z' || '0' <= c <= '9' || c in "-_.~$&+:=@"
  }

  function HexDigit(n: nat): Byte
    requires n < 16
  {
    if n < 10 then '0' + n as char else 'A' + (n - 10) as char
  }

  function HexValue(c: Byte): Option<nat> {
    if '0' <= c <= '9' then Some(c as int - '0' as int)
    else if 'A' <= c <= 'F' then Some(c as int - 'A' as int + 10)
    else if 'a' <= c <= 'f' then Some(c as int - 'a' as int + 10)
    else None
  }

  function EscapeByte(c: Byte): Text {
    if Kept(c) then [c] else ['%', HexDigit(c as int / 16), HexDigit(c as int % 16)]
  }

  /** url.PathEscape */
  function KeyPart(value: Text): Text {
    if value == [] then [] else EscapeByte(value[0]) + KeyPart(value[1..])
  }

  /** url.PathUnescape, the inverse that is proved below. */
  function Unescape(text: Text): Option<Text> {
    if text == [] then Some([])
    else if text[0] != '%' then
      match Unescape(text[1..]) { case Some(rest) => Some([text[0]] + rest) case None => None }
    else if |text| < 3 then None
    else
      match (HexValue(text[1]), HexValue(text[2]), Unescape(text[3..]))
      case (Some(high), Some(low), Some(rest)) =>
        if high < 16 && low < 16 then Some([(high * 16 + low) as char] + rest) else None
      case _ => None
  }

  lemma {:induction false} UnescapeEscaped(value: Text)
    ensures Unescape(KeyPart(value)) == Some(value)
  {
    if value != [] {
      var c, rest := value[0], value[1..];
      UnescapeEscaped(rest);
      var text := KeyPart(value);
      if Kept(c) {
        assert text[1..] == KeyPart(rest);
      } else {
        assert text[3..] == KeyPart(rest);
        HexRoundTrip(c as int / 16);
        HexRoundTrip(c as int % 16);
      }
      assert value == [c] + rest;
    }
  }

  lemma HexRoundTrip(n: nat)
    requires n < 16
    ensures HexValue(HexDigit(n)) == Some(n)
  {
  }

  lemma {:induction false} KeyPartHasNoSlash(value: Text)
    ensures '/' !in KeyPart(value)
  {
    if value != [] {
      KeyPartHasNoSlash(value[1..]);
      assert '/' !in EscapeByte(value[0]);
    }
  }

  lemma KeyPartIsInjective(a: Text, b: Text)
    ensures KeyPart(a) == KeyPart(b) <==> a == b
  {
    UnescapeEscaped(a);
    UnescapeEscaped(b);
  }

  // ---------- The builders ----------

  function HostKey(hostId: Text): Text {
    "host/" + KeyPart(hostId)
  }

  function SessionKey(hostId: Text, name: Text): Text {
    HostKey(hostId) + "/session/" + KeyPart(name)
  }

  function WindowKey(hostId: Text, name: Text, windowId: Text): Text {
    SessionKey(hostId, name) + "/window/" + KeyPart(windowId)
  }

  function PaneKey(hostId: Text, name: Text, windowId: Text, paneId: Text): Text {
    WindowKey(hostId, name, windowId) + "/pane/" + KeyPart(paneId)
  }

  function ActivityKey(hostId: Text, name: Text): Text {
    SessionKey(hostId, name) + "/activity"
  }

  /** strconv.Itoa */
  function Itoa(n: int): Text {
    if n < 0 then "-" + Digits(-n) else Digits(n)
  }

  function Digits(n: nat): Text {
    if n < 10 then [HexDigit(n)] else Digits(n / 10) + [HexDigit(n % 10)]
  }

  function ToolWindowKey(hostId: Text, session: Text, window: int): Text {
    SessionKey(hostId, session) + "/tool/" + KeyPart(Itoa(window))
  }

  function ToolPaneKey(hostId: Text, session: Text, window: int, pane: Text): Text {
    ToolWindowKey(hostId, session, window) + "/" + KeyPart(pane)
  }

  function ToolKey(hostId: Text, session: Text, window: int, pane: Text, tool: Text): Text {
    ToolPaneKey(hostId, session, window, pane) + "/" + KeyPart(tool)
  }

  function ToolEventKey(hostId: Text, session: Text, window: int, pane: Text, tool: Text): Text {
    ToolKey(hostId, session, window, pane, tool) + "/" + KeyPart(hostId)
  }

  // ---------- Injectivity ----------

  /** A text that ends in a separator and a slash-free part determines both. */
  lemma CutLast(p: Text, a: Text, q: Text, b: Text, sep: Text)
    requires '/' !in a && '/' !in b
    requires sep != [] && sep[|sep| - 1] == '/'
    requires p + sep + a == q + sep + b
    ensures p == q && a == b
  {
    var s := p + sep + a;
    var i, j := |p + sep| - 1, |q + sep| - 1;
    assert s[i] == '/' && s[j] == '/';
    assert forall k :: i < k < |s| ==> s[k] == a[k - i - 1];
    assert forall k :: j < k < |s| ==> s[k] == b[k - j - 1];
    assert i == j;
    assert p == s[..|p|] && q == s[..|q|];
    assert a == s[i + 1..] && b == s[j + 1..];
  }

  lemma {:induction false} DigitsIsInjective(m: nat, n: nat)
    requires Digits(m) == Digits(n)
    ensures m == n
  {
    DigitsShape(m);
    DigitsShape(n);
    HexRoundTrip(m % 10);
    HexRoundTrip(n % 10);
    assert Digits(m)[|Digits(m)| - 1] == HexDigit(m % 10);
    assert Digits(n)[|Digits(n)| - 1] == HexDigit(n % 10);
    if m >= 10 {
      assert Digits(m / 10) == Digits(m)[..|Digits(m)| - 1];
      assert Digits(n / 10) == Digits(n)[..|Digits(n)| - 1];
      DigitsIsInjective(m / 10, n / 10);
    }
  }

  lemma {:induction false} DigitsShape(n: nat)
    ensures Digits(n) != [] && Digits(n)[0] != '-'
    ensures |Digits(n)| == 1 <==> n < 10
  {
    if n >= 10 { DigitsShape(n / 10); }
  }

  lemma ItoaIsInjective(m: int, n: int)
    ensures Itoa(m) == Itoa(n) <==> m == n
  {
    if Itoa(m) == Itoa(n) {
      DigitsShape(if m < 0 then -m else m);
      DigitsShape(if n < 0 then -n else n);
      assert m < 0 <==> Itoa(m)[0] == '-';
      assert n < 0 <==> Itoa(n)[0] == '-';
      if m < 0 {
        assert Digits(-m) == Itoa(m)[1..] && Digits(-n) == Itoa(n)[1..];
        DigitsIsInjective(-m, -n);
      } else {
        DigitsIsInjective(m, n);
      }
    }
  }

  lemma HostKeyIsInjective(h: Text, h': Text)
    ensures HostKey(h) == HostKey(h') <==> h == h'
  {
    if HostKey(h) == HostKey(h') {
      assert KeyPart(h) == HostKey(h)[5..] && KeyPart(h') == HostKey(h')[5..];
      KeyPartIsInjective(h, h');
    }
  }

  lemma SessionKeyIsInjective(h: Text, s: Text, h': Text, s': Text)
    ensures SessionKey(h, s) == SessionKey(h', s') <==> h == h' && s == s'
  {
    if SessionKey(h, s) == SessionKey(h', s') {
      KeyPartHasNoSlash(s);
      KeyPartHasNoSlash(s');
      CutLast(HostKey(h), KeyPart(s), HostKey(h'), KeyPart(s'), "/session/");
      HostKeyIsInjective(h, h');
      KeyPartIsInjective(s, s');
    }
  }

  lemma WindowKeyIsInjective(h: Text, s: Text, w: Text, h': Text, s': Text, w': Text)
    ensures WindowKey(h, s, w) == WindowKey(h', s', w') <==> h == h' && s == s' && w == w'
  {
    if WindowKey(h, s, w) == WindowKey(h', s', w') {
      KeyPartHasNoSlash(w);
      KeyPartHasNoSlash(w');
      CutLast(SessionKey(h, s), KeyPart(w), SessionKey(h', s'), KeyPart(w'), "/window/");
      SessionKeyIsInjective(h, s, h', s');
      KeyPartIsInjective(w, w');
    }
  }

  lemma PaneKeyIsInjective(h: Text, s: Text, w: Text, p: Text, h': Text, s': Text, w': Text, p': Text)
    ensures PaneKey(h, s, w, p) == PaneKey(h', s', w', p') <==> h == h' && s == s' && w == w' && p == p'
  {
    if PaneKey(h, s, w, p) == PaneKey(h', s', w', p') {
      KeyPartHasNoSlash(p);
      KeyPartHasNoSlash(p');
      CutLast(WindowKey(h, s, w), KeyPart(p), WindowKey(h', s', w'), KeyPart(p'), "/pane/");
      WindowKeyIsInjective(h, s, w, h', s', w');
      KeyPartIsInjective(p, p');
    }
  }

  lemma ActivityKeyIsInjective(h: Text, s: Text, h': Text, s': Text)
    ensures ActivityKey(h, s) == ActivityKey(h', s') <==> h == h' && s == s'
  {
    if ActivityKey(h, s) == ActivityKey(h', s') {
      var n := |ActivityKey(h, s)| - 9;
      assert SessionKey(h, s) == ActivityKey(h, s)[..n] && SessionKey(h', s') == ActivityKey(h', s')[..n];
      SessionKeyIsInjective(h, s, h', s');
    }
  }

  lemma ToolWindowKeyIsInjective(h: Text, s: Text, w: int, h': Text, s': Text, w': int)
    ensures ToolWindowKey(h, s, w) == ToolWindowKey(h', s', w') <==> h == h' && s == s' && w == w'
  {
    if ToolWindowKey(h, s, w) == ToolWindowKey(h', s', w') {
      KeyPartHasNoSlash(Itoa(w));
      KeyPartHasNoSlash(Itoa(w'));
      CutLast(SessionKey(h, s), KeyPart(Itoa(w)), SessionKey(h', s'), KeyPart(Itoa(w')), "/tool/");
      SessionKeyIsInjective(h, s, h', s');
      KeyPartIsInjective(Itoa(w), Itoa(w'));
      ItoaIsInjective(w, w');
    }
  }

  lemma ToolPaneKeyIsInjective(h: Text, s: Text, w: int, p: Text, h': Text, s': Text, w': int, p': Text)
    ensures ToolPaneKey(h, s, w, p) == ToolPaneKey(h', s', w', p') <==> h == h' && s == s' && w == w' && p == p'
  {
    if ToolPaneKey(h, s, w, p) == ToolPaneKey(h', s', w', p') {
      KeyPartHasNoSlash(p);
      KeyPartHasNoSlash(p');
      CutLast(ToolWindowKey(h, s, w), KeyPart(p), ToolWindowKey(h', s', w'), KeyPart(p'), "/");
      ToolWindowKeyIsInjective(h, s, w, h', s', w');
      KeyPartIsInjective(p, p');
    }
  }

  lemma ToolEventKeyIsInjective(h: Text, s: Text, w: int, p: Text, t: Text,
                                h': Text, s': Text, w': int, p': Text, t': Text)
    ensures ToolEventKey(h, s, w, p, t) == ToolEventKey(h', s', w', p', t')
            <==> h == h' && s == s' && w == w' && p == p' && t == t'
  {
    if ToolEventKey(h, s, w, p, t) == ToolEventKey(h', s', w', p', t') {
      KeyPartHasNoSlash(h);
      KeyPartHasNoSlash(h');
      CutLast(ToolKey(h, s, w, p, t), KeyPart(h), ToolKey(h', s', w', p', t'), KeyPart(h'), "/");
      KeyPartHasNoSlash(t);
      KeyPartHasNoSlash(t');
      CutLast(ToolPaneKey(h, s, w, p), KeyPart(t), ToolPaneKey(h', s', w', p'), KeyPart(t'), "/");
      ToolPaneKeyIsInjective(h, s, w, p, h', s', w', p');
      KeyPartIsInjective(t, t');
    }
  }

  /** No key that the builders make is blank, so none is refused as the key of a remove operation. */
  lemma BuiltKeysAreNotBlank(h: Text, s: Text, w: Text, p: Text)
    ensures !Blank(HostKey(h)) && !Blank(SessionKey(h, s)) && !Blank(WindowKey(h, s, w)) && !Blank(PaneKey(h, s, w, p))
  {
    LetterIsNotBlank(HostKey(h));
    LetterIsNotBlank(SessionKey(h, s));
    LetterIsNotBlank(WindowKey(h, s, w));
    LetterIsNotBlank(PaneKey(h, s, w, p));
  }
}
