/** Embedding a signed envelope in HTML (packages/sdk/src/sign-html.ts): an
    HTML escaper and the wrapper element that carries the credential as
    base64 in a `data-agentcred` attribute. */
module SignHtml {
  import opened Wrappers
  import opened Types
  import opened Strings
  import opened Primitives
  import opened Signer

  const Amp := "&amp;"
  const Lt := "&lt;"
  const Gt := "&gt;"
  const Quot := "&quot;"
  const Apos := "&#039;"

  /** `escapeHTML`: five global replacements, '&' first. */
  function EscapeHtml(s: string): string
  {
    ReplaceAllChar(ReplaceAllChar(ReplaceAllChar(ReplaceAllChar(ReplaceAllChar(
      s, '&', Amp), '<', Lt), '>', Gt), '"', Quot), '\'', Apos)
  }

  /** The replacement of one character. */
  function EscapeChar(c: char): string
  {
    if c == '&' then Amp
    else if c == '<' then Lt
    else if c == '>' then Gt
    else if c == '"' then Quot
    else if c == '\'' then Apos
    else [c]
  }

  /** The reference escaper: each character replaced on its own. */
  function EscapeEach(s: string): string
    decreases |s|
  {
    if |s| == 0 then "" else EscapeChar(s[0]) + EscapeEach(s[1..])
  }

  lemma EscapeHtmlAppend(a: string, b: string)
    ensures EscapeHtml(a + b) == EscapeHtml(a) + EscapeHtml(b)
  {
    ReplaceAllCharAppend(a, b, '&', Amp);
    var a1, b1 := ReplaceAllChar(a, '&', Amp), ReplaceAllChar(b, '&', Amp);
    ReplaceAllCharAppend(a1, b1, '<', Lt);
    var a2, b2 := ReplaceAllChar(a1, '<', Lt), ReplaceAllChar(b1, '<', Lt);
    ReplaceAllCharAppend(a2, b2, '>', Gt);
    var a3, b3 := ReplaceAllChar(a2, '>', Gt), ReplaceAllChar(b2, '>', Gt);
    ReplaceAllCharAppend(a3, b3, '"', Quot);
    var a4, b4 := ReplaceAllChar(a3, '"', Quot), ReplaceAllChar(b3, '"', Quot);
    ReplaceAllCharAppend(a4, b4, '\'', Apos);
  }

  lemma ReplaceInOneChar(c: char, x: char, rep: string)
    ensures ReplaceAllChar([c], x, rep) == if c == x then rep else [c]
  {
    assert [c][1..] == "";
  }

  /** The last four replacements leave a string without their characters
      alone. */
  lemma LaterStepsFix(e: string)
    requires '<' !in e && '>' !in e && '"' !in e && '\'' !in e
    ensures ReplaceAllChar(ReplaceAllChar(ReplaceAllChar(ReplaceAllChar(e, '<', Lt), '>', Gt), '"', Quot), '\'', Apos) == e
  {
    ReplaceAllCharAbsent(e, '<', Lt);
    ReplaceAllCharAbsent(e, '>', Gt);
    ReplaceAllCharAbsent(e, '"', Quot);
    ReplaceAllCharAbsent(e, '\'', Apos);
  }

  lemma EscapeAmpersand()
    ensures EscapeHtml("&") == Amp
  {
    ReplaceInOneChar('&', '&', Amp);
    LaterStepsFix(Amp);
  }

  lemma EscapeLessThan()
    ensures EscapeHtml("<") == Lt
  {
    ReplaceInOneChar('<', '&', Amp);
    ReplaceInOneChar('<', '<', Lt);
    LastThreeStepsFix(Lt);
  }

  /** The last three replacements leave a string without their characters
      alone. */
  lemma LastThreeStepsFix(e: string)
    requires '>' !in e && '"' !in e && '\'' !in e
    ensures ReplaceAllChar(ReplaceAllChar(ReplaceAllChar(e, '>', Gt), '"', Quot), '\'', Apos) == e
  {
    ReplaceAllCharAbsent(e, '>', Gt);
    ReplaceAllCharAbsent(e, '"', Quot);
    ReplaceAllCharAbsent(e, '\'', Apos);
  }

  lemma EscapeGreaterThan()
    ensures EscapeHtml(">") == Gt
  {
    ReplaceInOneChar('>', '&', Amp);
    ReplaceInOneChar('>', '<', Lt);
    ReplaceInOneChar('>', '>', Gt);
    ReplaceAllCharAbsent(Gt, '"', Quot);
    ReplaceAllCharAbsent(Gt, '\'', Apos);
  }

  lemma EscapeDoubleQuote()
    ensures EscapeHtml("\"") == Quot
  {
    ReplaceInOneChar('"', '&', Amp);
    ReplaceInOneChar('"', '<', Lt);
    ReplaceInOneChar('"', '>', Gt);
    ReplaceInOneChar('"', '"', Quot);
    ReplaceAllCharAbsent(Quot, '\'', Apos);
  }

  lemma EscapeSingleQuote()
    ensures EscapeHtml("'") == Apos
  {
    ReplaceInOneChar('\'', '&', Amp);
    ReplaceInOneChar('\'', '<', Lt);
    ReplaceInOneChar('\'', '>', Gt);
    ReplaceInOneChar('\'', '"', Quot);
    ReplaceInOneChar('\'', '\'', Apos);
  }

  lemma EscapeOrdinary(c: char)
    requires c != '&' && !IsMarkupChar(c)
    ensures EscapeHtml([c]) == [c]
  {
    ReplaceInOneChar(c, '&', Amp);
    ReplaceInOneChar(c, '<', Lt);
    ReplaceInOneChar(c, '>', Gt);
    ReplaceInOneChar(c, '"', Quot);
    ReplaceInOneChar(c, '\'', Apos);
  }

  lemma EscapeHtmlOneChar(c: char)
    ensures EscapeHtml([c]) == EscapeChar(c)
  {
    if c == '&' {
      EscapeAmpersand();
    } else if c == '<' {
      EscapeLessThan();
    } else if c == '>' {
      EscapeGreaterThan();
    } else if c == '"' {
      EscapeDoubleQuote();
    } else if c == '\'' {
      EscapeSingleQuote();
    } else {
      EscapeOrdinary(c);
    }
  }

  /** The chain of global replacements is the per-character escaper: because
      '&' goes first, no entity an earlier step wrote is escaped again. */
  lemma {:induction false} EscapeHtmlIsPerCharacter(s: string)
    ensures EscapeHtml(s) == EscapeEach(s)
    decreases |s|
  {
    if |s| == 0 {
      assert EscapeHtml(s) == "";
    } else {
      assert s == [s[0]] + s[1..];
      EscapeHtmlAppend([s[0]], s[1..]);
      EscapeHtmlOneChar(s[0]);
      EscapeHtmlIsPerCharacter(s[1..]);
    }
  }

  /** The characters markup is made of. */
  predicate IsMarkupChar(c: char)
  {
    c == '<' || c == '>' || c == '"' || c == '\''
  }

  lemma {:induction false} EscapeEachHasNoMarkup(s: string)
    ensures forall k :: 0 <= k < |EscapeEach(s)| ==> !IsMarkupChar(EscapeEach(s)[k])
    decreases |s|
  {
    if |s| > 0 {
      EscapeEachHasNoMarkup(s[1..]);
      var head := EscapeChar(s[0]);
      assert forall k :: 0 <= k < |head| ==> !IsMarkupChar(head[k]);
      var out := EscapeEach(s);
      assert out == head + EscapeEach(s[1..]);
      forall k | 0 <= k < |out| ensures !IsMarkupChar(out[k]) {
        if k >= |head| {
          assert out[k] == EscapeEach(s[1..])[k - |head|];
        }
      }
    }
  }

  /** Escaped text contains none of '<', '>', '"' or "'". */
  lemma EscapedHasNoMarkup(s: string)
    ensures '<' !in EscapeHtml(s) && '>' !in EscapeHtml(s)
    ensures '"' !in EscapeHtml(s) && '\'' !in EscapeHtml(s)
  {
    EscapeHtmlIsPerCharacter(s);
    EscapeEachHasNoMarkup(s);
    var out := EscapeHtml(s);
    assert forall k :: 0 <= k < |out| ==> !IsMarkupChar(out[k]);
  }

  /** Whether an entity starts here. */
  predicate StartsEntity(t: string)
  {
    IsPrefix(Amp, t) || IsPrefix(Lt, t) || IsPrefix(Gt, t) || IsPrefix(Quot, t) || IsPrefix(Apos, t)
  }

  /** Every '&' in escaped text begins one of the five entities: nothing is
      escaped twice. */
  lemma {:induction false} EveryAmpersandStartsEntity(s: string, i: nat)
    requires i < |EscapeEach(s)| && EscapeEach(s)[i] == '&'
    ensures StartsEntity(EscapeEach(s)[i..])
    decreases |s|
  {
    var head := EscapeChar(s[0]);
    var tail := EscapeEach(s[1..]);
    var out := EscapeEach(s);
    assert out == head + tail;
    if i < |head| {
      assert head[i] == '&';
      assert i == 0;
      assert out[0..] == out;
      assert out[..|head|] == head;
    } else {
      assert out[i] == tail[i - |head|];
      EveryAmpersandStartsEntity(s[1..], i - |head|);
      assert out[i..] == tail[i - |head|..];
    }
  }

  /** Every '&' that `escapeHTML` outputs begins an entity. */
  lemma EscapedAmpersandsStartEntities(s: string, i: nat)
    requires i < |EscapeHtml(s)| && EscapeHtml(s)[i] == '&'
    ensures StartsEntity(EscapeHtml(s)[i..])
  {
    EscapeHtmlIsPerCharacter(s);
    EveryAmpersandStartsEntity(s, i);
  }

  /** Reading entities back: the inverse of escaping. */
  function Unescape(t: string): string
    decreases |t|
  {
    if |t| == 0 then ""
    else if IsPrefix(Amp, t) then "&" + Unescape(t[|Amp|..])
    else if IsPrefix(Lt, t) then "<" + Unescape(t[|Lt|..])
    else if IsPrefix(Gt, t) then ">" + Unescape(t[|Gt|..])
    else if IsPrefix(Quot, t) then "\"" + Unescape(t[|Quot|..])
    else if IsPrefix(Apos, t) then "'" + Unescape(t[|Apos|..])
    else [t[0]] + Unescape(t[1..])
  }

  /** Entities all start with '&' and differ in their second character. */
  lemma EntityShapes()
    ensures Amp[0] == '&' && Lt[0] == '&' && Gt[0] == '&' && Quot[0] == '&' && Apos[0] == '&'
    ensures Amp[1] == 'a' && Lt[1] == 'l' && Gt[1] == 'g' && Quot[1] == 'q' && Apos[1] == '#'
  {
  }

  lemma UnescapeEntity(c: char, rest: string)
    requires c == '&' || IsMarkupChar(c)
    ensures Unescape(EscapeChar(c) + rest) == [c] + Unescape(rest)
  {
    EntityShapes();
    var e := EscapeChar(c);
    var t := e + rest;
    assert t[..|e|] == e && t[|e|..] == rest;
    assert t[1] == e[1];
    if c == '&' {
      assert IsPrefix(Amp, t);
    } else if c == '<' {
      assert !IsPrefix(Amp, t) by { if |t| >= |Amp| { assert t[1] != Amp[1]; } }
      assert IsPrefix(Lt, t);
    } else if c == '>' {
      assert !IsPrefix(Amp, t) by { if |t| >= |Amp| { assert t[1] != Amp[1]; } }
      assert !IsPrefix(Lt, t) by { assert t[1] != Lt[1]; }
      assert IsPrefix(Gt, t);
    } else if c == '"' {
      assert !IsPrefix(Amp, t) by { if |t| >= |Amp| { assert t[1] != Amp[1]; } }
      assert !IsPrefix(Lt, t) by { assert t[1] != Lt[1]; }
      assert !IsPrefix(Gt, t) by { assert t[1] != Gt[1]; }
      assert IsPrefix(Quot, t);
    } else {
      assert !IsPrefix(Amp, t) by { assert t[1] != Amp[1]; }
      assert !IsPrefix(Lt, t) by { assert t[1] != Lt[1]; }
      assert !IsPrefix(Gt, t) by { assert t[1] != Gt[1]; }
      assert !IsPrefix(Quot, t) by { assert t[1] != Quot[1]; }
      assert IsPrefix(Apos, t);
    }
  }

  lemma UnescapeOrdinary(c: char, rest: string)
    requires c != '&' && !IsMarkupChar(c)
    ensures Unescape(EscapeChar(c) + rest) == [c] + Unescape(rest)
  {
    EntityShapes();
    var t := [c] + rest;
    assert t[0] == c && t[1..] == rest;
    assert !StartsEntity(t);
  }

  lemma UnescapeStep(c: char, rest: string)
    ensures Unescape(EscapeChar(c) + rest) == [c] + Unescape(rest)
  {
    if c == '&' || IsMarkupChar(c) {
      UnescapeEntity(c, rest);
    } else {
      UnescapeOrdinary(c, rest);
    }
  }

  /** Unescaping escaped text gives the text back, so escaping loses nothing. */
  lemma {:induction false} UnescapeEscape(s: string)
    ensures Unescape(EscapeHtml(s)) == s
    decreases |s|
  {
    EscapeHtmlIsPerCharacter(s);
    if |s| > 0 {
      UnescapeStep(s[0], EscapeEach(s[1..]));
      UnescapeEscape(s[1..]);
      EscapeHtmlIsPerCharacter(s[1..]);
      assert s == [s[0]] + s[1..];
    }
  }

  // ---------------------------------------------------------------------
  // signWithHTML

  /** The three wrapper elements the options admit. */
  datatype WrapperTag = Span | Div | Paragraph
  {
    function Name(): string
    {
      match this
      case Span => "span"
      case Div => "div"
      case Paragraph => "p"
    }
  }

  datatype HtmlOptions = HtmlOptions(sign: SignOptions, wrapperTag: Option<WrapperTag>, className: Option<string>)

  /** ` class="…"` when the class name is non-empty, else nothing. */
  function ClassAttr(className: Option<string>): (r: string)
    ensures Truthy(className) ==> r == " class=\"" + EscapeHtml(className.value) + "\""
    ensures !Truthy(className) ==> r == ""
  {
    if Truthy(className) then " class=\"" + EscapeHtml(className.value) + "\"" else ""
  }

  function OpenTag(tag: string, classAttr: string, encoded: string): string
  {
    "<" + tag + classAttr + " data-agentcred=\"" + encoded + "\""
  }

  /** `signWithHTML(content, identity, options)`. */
  function SignWithHtml(p: Primitives, content: string, identity: SignIdentity, options: HtmlOptions,
                        nowMs: int, nonce: string): (r: Result<string>)
    ensures r.Success? <==> Sign(p, content, identity, options.sign, nowMs, nonce).Success?
  {
    var envelope :- Sign(p, content, identity, options.sign, nowMs, nonce);
    var tag := options.wrapperTag.GetOr(Span).Name();
    var encoded := p.base64(p.credentialJson(envelope.agentcred));
    Success(OpenTag(tag, ClassAttr(options.className), encoded) + ">" + EscapeHtml(content) + "</" + tag + ">")
  }

  /** What a reader finds in the element: the attribute value and the text. */
  datatype Embedded = Embedded(metadata: string, content: string)

  /** Reading an element back: split at '>' into the opening tag, the body
      with the closing tag, and nothing; the metadata is the last quoted
      value of the opening tag and the content the unescaped body. */
  function ReadHtml(html: string): Option<Embedded>
  {
    var outer := Split(html, '>');
    if |outer| != 3 || outer[2] != "" then None
    else
      var attrs := Split(outer[0], '"');
      var inner := Split(outer[1], '<');
      if |attrs| < 3 || |inner| != 2 then None
      else Some(Embedded(attrs[|attrs| - 2], Unescape(inner[0])))
  }

  lemma Base64HasNoMarkup(p: Primitives, m: string)
    requires Sound(p)
    ensures forall k :: 0 <= k < |p.base64(m)| ==> !IsMarkupChar(p.base64(m)[k])
  {
    assert IsBase64Text(p.base64(m));
  }

  predicate NoMarkup(s: string)
  {
    forall k :: 0 <= k < |s| ==> !IsMarkupChar(s[k])
  }

  lemma TagNameHasNoMarkup(tag: WrapperTag)
    ensures NoMarkup(tag.Name())
  {
  }

  lemma NoMarkupMeans(s: string)
    requires NoMarkup(s)
    ensures '<' !in s && '>' !in s && '"' !in s
  {
  }

  /** The opening tag with a class attribute, as '"'-separated pieces. */
  lemma OpenTagWithClass(name: string, esc: string, encoded: string)
    requires NoMarkup(name) && NoMarkup(encoded) && NoMarkup(esc)
    ensures var open := OpenTag(name, " class=\"" + esc + "\"", encoded);
      && '>' !in open
      && Split(open, '"') == ["<" + name + " class=", esc, " data-agentcred=", encoded, ""]
  {
    NoMarkupMeans(name);
    NoMarkupMeans(esc);
    NoMarkupMeans(encoded);
    var pieces := ["<" + name + " class=", esc, " data-agentcred=", encoded, ""];
    var open := OpenTag(name, " class=\"" + esc + "\"", encoded);
    assert Join(pieces[4..], '"') == "";
    assert Join(pieces[3..], '"') == encoded + "\"";
    assert Join(pieces[2..], '"') == " data-agentcred=" + "\"" + encoded + "\"";
    assert Join(pieces[1..], '"') == esc + "\"" + " data-agentcred=" + "\"" + encoded + "\"";
    assert open == Join(pieces, '"');
    assert forall k :: 0 <= k < |pieces| ==> '"' !in pieces[k];
    SplitJoin(pieces, '"');
  }

  /** The opening tag without a class attribute, as '"'-separated pieces. */
  lemma OpenTagWithoutClass(name: string, encoded: string)
    requires NoMarkup(name) && NoMarkup(encoded)
    ensures var open := OpenTag(name, "", encoded);
      && '>' !in open
      && Split(open, '"') == ["<" + name + " data-agentcred=", encoded, ""]
  {
    NoMarkupMeans(name);
    NoMarkupMeans(encoded);
    var pieces := ["<" + name + " data-agentcred=", encoded, ""];
    var open := OpenTag(name, "", encoded);
    assert Join(pieces[2..], '"') == "";
    assert Join(pieces[1..], '"') == encoded + "\"";
    assert open == Join(pieces, '"');
    assert forall k :: 0 <= k < |pieces| ==> '"' !in pieces[k];
    SplitJoin(pieces, '"');
  }

  /** The opening tag holds no '>' and its last quoted value is the
      metadata. */
  lemma OpenTagPieces(name: string, className: Option<string>, encoded: string)
    requires NoMarkup(name) && NoMarkup(encoded)
    ensures var open := OpenTag(name, ClassAttr(className), encoded);
      && '>' !in open
      && var attrs := Split(open, '"');
         |attrs| >= 3 && attrs[|attrs| - 2] == encoded
  {
    if Truthy(className) {
      var esc := EscapeHtml(className.value);
      EscapedHasNoMarkup(className.value);
      assert NoMarkup(esc);
      OpenTagWithClass(name, esc, encoded);
    } else {
      OpenTagWithoutClass(name, encoded);
    }
  }

  /** Reading back any element the builder makes. */
  lemma ReadElement(name: string, className: Option<string>, encoded: string, content: string)
    requires NoMarkup(name) && NoMarkup(encoded)
    ensures ReadHtml(OpenTag(name, ClassAttr(className), encoded) + ">" + EscapeHtml(content) + "</" + name + ">")
         == Some(Embedded(encoded, content))
  {
    OpenTagPieces(name, className, encoded);
    NoMarkupMeans(name);
    var open := OpenTag(name, ClassAttr(className), encoded);
    var esc := EscapeHtml(content);
    EscapedHasNoMarkup(content);
    var html := open + ">" + esc + "</" + name + ">";
    var body := esc + "</" + name;
    var outer := [open, body, ""];
    assert '>' !in body;
    assert Join(outer[2..], '>') == "";
    assert Join(outer[1..], '>') == body + ">";
    assert html == Join(outer, '>');
    assert forall k :: 0 <= k < |outer| ==> '>' !in outer[k];
    SplitJoin(outer, '>');
    var inner := [esc, "/" + name];
    assert '<' !in "/" + name;
    assert body == Join(inner, '<');
    assert forall k :: 0 <= k < |inner| ==> '<' !in inner[k];
    SplitJoin(inner, '<');
    UnescapeEscape(content);
  }

  /** A reader recovers from the element the credential's base64 and the
      content exactly; the attribute decodes to the envelope's credential,
      whose agent is the resolved agent. Since escaped content has no '<',
      the body never closes the element early. */
  lemma ReadSignedHtml(p: Primitives, content: string, identity: SignIdentity, options: HtmlOptions,
                       nowMs: int, nonce: string)
    requires Sound(p)
    requires identity.privateKey.Ed25519Private?
    ensures var envelope := Sign(p, content, identity, options.sign, nowMs, nonce).value;
      var read := ReadHtml(SignWithHtml(p, content, identity, options, nowMs, nonce).value);
      && read == Some(Embedded(p.base64(p.credentialJson(envelope.agentcred)), content))
      && p.base64Decode(read.value.metadata) == Some(p.credentialJson(envelope.agentcred))
      && p.parseCredential(p.credentialJson(envelope.agentcred)) == Some(envelope.agentcred)
      && envelope.agentcred.agent == options.sign.agent.GetOr(DefaultAgent)
  {
    var envelope := Sign(p, content, identity, options.sign, nowMs, nonce).value;
    var tag := options.wrapperTag.GetOr(Span);
    var encoded := p.base64(p.credentialJson(envelope.agentcred));
    Base64HasNoMarkup(p, p.credentialJson(envelope.agentcred));
    TagNameHasNoMarkup(tag);
    ReadElement(tag.Name(), options.className, encoded, content);
  }

  /** The class attribute is there exactly when the class name is non-empty. */
  lemma ClassAttributeIffClassName(p: Primitives, content: string, identity: SignIdentity,
                                   options: HtmlOptions, nowMs: int, nonce: string)
    requires identity.privateKey.Ed25519Private?
    ensures var html := SignWithHtml(p, content, identity, options, nowMs, nonce).value;
      var name := options.wrapperTag.GetOr(Span).Name();
      IsPrefix("<" + name + " class=\"", html) <==> Truthy(options.className)
  {
    var html := SignWithHtml(p, content, identity, options, nowMs, nonce).value;
    var name := options.wrapperTag.GetOr(Span).Name();
    var pre := "<" + name + " class=\"";
    if !Truthy(options.className) {
      assert html[|name| + 2] == 'd';
      assert pre[|name| + 2] == 'c';
    }
  }
}
