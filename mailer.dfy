/** `MailerService.sendMail` up to the transport: the `{{key}}` template
    substitution and the defaulting of `from` and `html`. Reading the
    template file is a parameter; the nodemailer transport is not modelled. */
module Mailer {
  import opened Common
  import opened Entities

  /** `\w`: `[A-Za-z0-9_]`. */
  predicate IsWordChar(c: char) {
    ('A' <= c <= 'Z') || ('a' <= c <= 'z') || ('0' <= c <= '9') || c == '_'
  }

  /** The length of the run of word characters that starts `s`. */
  function WordRun(s: string): (n: nat)
    ensures n <= |s|
    ensures forall i :: 0 <= i < n ==> IsWordChar(s[i])
    ensures n == |s| || !IsWordChar(s[n])
  {
    if s != [] && IsWordChar(s[0]) then 1 + WordRun(s[1..]) else 0
  }

  /** The key of the placeholder `{{key}}` that starts `s`, if one does: the
      regex `\{\{(\w+)\}\}` at this position. `\w+` is greedy and `}` is not a
      word character, so only the whole run of word characters can be
      followed by `}}`. */
  function PlaceholderAt(s: string): (r: Option<string>)
    ensures r.Some? ==> |r.value| >= 1 && StartsWith(s, "{{" + r.value + "}}")
    ensures r.Some? ==> forall i :: 0 <= i < |r.value| ==> IsWordChar(r.value[i])
  {
    if StartsWith(s, "{{") then
      var n := WordRun(s[2..]);
      if n >= 1 && StartsWith(s[2 + n..], "}}") then
        assert s[..n + 4] == "{{" + s[2..2 + n] + "}}";
        Some(s[2..2 + n])
      else None
    else None
  }

  /** `context && key in context ? String(context[key]) : ''`. */
  function Lookup(key: string, context: Option<map<string, string>>): (r: string)
    ensures r == "" || r in Values(context)
  {
    if context.Some? && key in context.value then context.value[key] else ""
  }

  /** `template.replace(/\{\{(\w+)\}\}/g, ...)`: one left-to-right scan; at a
      placeholder the replacement is emitted and the scan resumes after it,
      elsewhere the character is copied. */
  function Render(t: string, context: Option<map<string, string>>): (r: string)
    ensures forall c :: c in r ==> c in t || InSomeValue(c, context)
    ensures Values(context) <= {""} ==> |r| <= |t|
    decreases |t|
  {
    if t == [] then []
    else match PlaceholderAt(t)
      case Some(key) => Lookup(key, context) + Render(t[|key| + 4..], context)
      case None => [t[0]] + Render(t[1..], context)
  }

  /** Whether `c` occurs in one of the context's values. */
  predicate InSomeValue(c: char, context: Option<map<string, string>>) {
    context.Some? && exists k :: k in context.value && c in context.value[k]
  }

  /** The values a placeholder can be replaced by. */
  function Values(context: Option<map<string, string>>): set<string> {
    if context.Some? then context.value.Values else {}
  }

  /** A placeholder is replaced by its value, or by `''` when the key is not
      in the context; the value is emitted verbatim, never rescanned, and the
      rest of the template is rendered on its own. */
  lemma PlaceholderReplaced(key: string, rest: string, context: Option<map<string, string>>)
    requires |key| >= 1 && forall i :: 0 <= i < |key| ==> IsWordChar(key[i])
    ensures Render("{{" + key + "}}" + rest, context) == Lookup(key, context) + Render(rest, context)
  {
    var t := "{{" + key + "}}" + rest;
    assert t[..2] == "{{";
    assert t[2..] == key + ("}}" + rest);
    WordRunOfWord(key, "}}" + rest);
    assert t[2 + |key|..] == "}}" + rest;
    assert t[2..2 + |key|] == key;
    assert PlaceholderAt(t) == Some(key);
    assert t[|key| + 4..] == rest;
  }

  lemma {:induction false} WordRunOfWord(w: string, rest: string)
    requires forall i :: 0 <= i < |w| ==> IsWordChar(w[i])
    requires rest == [] || !IsWordChar(rest[0])
    ensures WordRun(w + rest) == |w|
  {
    if w != [] {
      assert (w + rest)[1..] == w[1..] + rest;
      WordRunOfWord(w[1..], rest);
    }
  }

  /** Text in which no placeholder starts anywhere, including malformed ones
      such as `{{ name }}` or `{{}}`, comes out unchanged. */
  lemma {:induction false} NoPlaceholderUnchanged(t: string, context: Option<map<string, string>>)
    requires forall i :: 0 <= i < |t| ==> PlaceholderAt(t[i..]).None?
    ensures Render(t, context) == t
    decreases |t|
  {
    if t != [] {
      assert t[0..] == t;
      forall i | 0 <= i < |t| - 1 ensures PlaceholderAt(t[1..][i..]).None? {
        assert t[1..][i..] == t[i + 1..];
      }
      NoPlaceholderUnchanged(t[1..], context);
    }
  }

  /** Text without the two-character opener `{{` is unchanged. */
  lemma NoOpenerUnchanged(t: string, context: Option<map<string, string>>)
    requires forall i :: 0 <= i < |t| - 1 ==> !(t[i] == '{' && t[i + 1] == '{')
    ensures Render(t, context) == t
  {
    forall i | 0 <= i < |t| ensures PlaceholderAt(t[i..]).None? {
      assert i < |t| - 1 ==> t[i..][..2] == [t[i], t[i + 1]];
    }
    NoPlaceholderUnchanged(t, context);
  }

  /** `{{ name }}`, with spaces inside the braces, is left as it is. */
  lemma SpacedPlaceholderKept(context: Option<map<string, string>>)
    ensures Render("{{ name }}", context) == "{{ name }}"
  {
    var a := "{{ name }}";
    forall i | 0 <= i < |a| ensures PlaceholderAt(a[i..]).None? {
      if i == 0 {
        assert a[2..][0] == ' ';
        assert WordRun(a[2..]) == 0;
      } else if i < |a| - 1 {
        assert a[i..][..2] == [a[i], a[i + 1]];
      }
    }
    NoPlaceholderUnchanged(a, context);
  }

  /** `{{}}`, with no name inside the braces, is left as it is. */
  lemma EmptyPlaceholderKept(context: Option<map<string, string>>)
    ensures Render("{{}}", context) == "{{}}"
  {
    var b := "{{}}";
    forall i | 0 <= i < |b| ensures PlaceholderAt(b[i..]).None? {
      if i == 0 {
        assert b[2..][0] == '}';
        assert WordRun(b[2..]) == 0;
      } else if i < |b| - 1 {
        assert b[i..][..2] == [b[i], b[i + 1]];
      }
    }
    NoPlaceholderUnchanged(b, context);
  }

  /** A value that itself looks like a placeholder is not expanded again. */
  lemma SinglePass()
    ensures Render("{{a}}", Some(map["a" := "{{b}}", "b" := "x"])) == "{{b}}"
  {
    PlaceholderReplaced("a", "", Some(map["a" := "{{b}}", "b" := "x"]));
    assert "{{" + "a" + "}}" + "" == "{{a}}";
  }

  /** What `fs.readFile(templatePath, 'utf-8')` gives. */
  datatype TemplateRead = Content(text: string) | ReadFailure(message: string)

  /** The `sendMail` argument: nodemailer options plus `templatePath` and
      `context`. An absent option is `None`. */
  datatype MailOptions = MailOptions(
    to: string,
    subject: string,
    from: Option<string>,
    html: Option<string>,
    templatePath: Option<string>,
    context: Option<map<string, string>>)

  /** The options handed to the transport. */
  datatype OutgoingMail = OutgoingMail(to: string, subject: string, from: string, html: Option<string>)

  /** The request a service builds, as `sendMail` options. */
  function Options(m: MailRequest): MailOptions {
    MailOptions(m.to, m.subject, None, None, Some(m.templatePath), Some(m.context))
  }

  /** `configService.get(key, fallback)`. */
  function ConfigGet(config: map<string, string>, key: string, fallback: string): string {
    if key in config then config[key] else fallback
  }

  /** The default sender `"name" <email>`: each part is configured on its own
      and falls back on its own. */
  function DefaultFrom(config: map<string, string>): (r: string)
    ensures StartsWith(r, "\"" + ConfigGet(config, "MAIL_DEFAULT_NAME", "Default Name") + "\" <")
    ensures EndsWith(r, "<" + ConfigGet(config, "MAIL_DEFAULT_EMAIL", "noreply@example.com") + ">")
  {
    var name := ConfigGet(config, "MAIL_DEFAULT_NAME", "Default Name");
    var email := ConfigGet(config, "MAIL_DEFAULT_EMAIL", "noreply@example.com");
    var r := "\"" + name + "\" <" + email + ">";
    PrefixAndSuffix("\"" + name + "\" <", email + ">");
    assert r == "\"" + name + "\" <" + (email + ">");
    PrefixAndSuffix("\"" + name + "\" ", "<" + email + ">");
    assert r == "\"" + name + "\" " + ("<" + email + ">");
    r
  }

  lemma DefaultFromUnconfigured()
    ensures DefaultFrom(map[]) == "\"Default Name\" <noreply@example.com>"
  {
  }

  /** `sendMail` up to `transporter.sendMail`: a template is read and
      rendered only when `templatePath` is given; a read failure is thrown
      with the fixed prefix; `from` and `html` fall back with `||`. */
  function ComposeMail(opts: MailOptions, readFile: string -> TemplateRead, config: map<string, string>): (r: Result<OutgoingMail>)
    ensures r.Err? <==> HasText(opts.templatePath) && readFile(opts.templatePath.value).ReadFailure?
    ensures r.Err? ==> r.error == ServerError("Failed to read email template: " + readFile(opts.templatePath.value).message)
    ensures r.Ok? ==> r.value.to == opts.to && r.value.subject == opts.subject
    ensures r.Ok? ==> r.value.from == (if HasText(opts.from) then opts.from.value else DefaultFrom(config))
    ensures r.Ok? && HasText(opts.html) ==> r.value.html == opts.html
    ensures r.Ok? && !HasText(opts.html) && HasText(opts.templatePath) ==>
              r.value.html == Some(Render(readFile(opts.templatePath.value).text, opts.context))
    ensures r.Ok? && !HasText(opts.html) && !HasText(opts.templatePath) ==> r.value.html == None
  {
    var rendered: Result<Option<string>> :=
      if HasText(opts.templatePath) then
        match readFile(opts.templatePath.value)
        case Content(text) => Ok(Some(Render(text, opts.context)))
        case ReadFailure(message) => Err(ServerError("Failed to read email template: " + message))
      else Ok(None);
    if rendered.Err? then Err(rendered.error)
    else
      var from := if HasText(opts.from) then opts.from.value else DefaultFrom(config);
      var html := if HasText(opts.html) then opts.html else rendered.value;
      Ok(OutgoingMail(opts.to, opts.subject, from, html))
  }

  /** A request a service hands to `sendMail` (no `from`, no `html`, a
      template and its context) becomes a mail from the default sender
      whose body is the rendered template, or fails with the read error. */
  lemma QueuedMailComposed(m: MailRequest, readFile: string -> TemplateRead, config: map<string, string>)
    requires m.templatePath != ""
    ensures readFile(m.templatePath).Content? ==>
              ComposeMail(Options(m), readFile, config)
                == Ok(OutgoingMail(m.to, m.subject, DefaultFrom(config), Some(Render(readFile(m.templatePath).text, Some(m.context)))))
    ensures readFile(m.templatePath).ReadFailure? ==>
              ComposeMail(Options(m), readFile, config)
                == Err(ServerError("Failed to read email template: " + readFile(m.templatePath).message))
  {
  }
}
