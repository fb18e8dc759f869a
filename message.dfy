/** How services/emailSender.js turns one send task into the mail options
    handed to the transport: the per-recipient variables (`email`, `nome`,
    `empresa`) merged over the template's own, the three rendered parts, and
    `sendEmail`'s choice of bodies (plain text preferred, tags stripped from
    the HTML as a fallback). */
module MessageCompose {
  import opened Js
  import opened TemplateRender
  import opened EmailShape
  import opened Schema

  // ---------------------------------------------------------------------
  // `htmlContent.replace(/<[^>]*>/g, '')`

  /** Every `<` that has a `>` somewhere after it starts a match running to
      the first such `>`; the match is removed. A `<` with no later `>` is
      kept. */
  function StripTags(s: string): (r: string)
    ensures |r| <= |s|
    decreases |s|
  {
    if s == [] then []
    else if s[0] == '<' && '>' in s[1..] then StripTags(s[IndexOf(s[1..], '>') + 2..])
    else [s[0]] + StripTags(s[1..])
  }

  /** No `<` is followed, anywhere later, by a `>`. */
  predicate NoCompleteTag(s: string) {
    forall i, j :: 0 <= i < j < |s| ==> !(s[i] == '<' && s[j] == '>')
  }

  lemma {:induction false} StripTagsKeepsOnlyInputChars(s: string, c: char)
    ensures c in StripTags(s) ==> c in s
    decreases |s|
  {
    if s != [] {
      if s[0] == '<' && '>' in s[1..] {
        var k := IndexOf(s[1..], '>') + 2;
        StripTagsKeepsOnlyInputChars(s[k..], c);
        if c in s[k..] {
          var j :| 0 <= j < |s[k..]| && s[k..][j] == c;
          assert s[k + j] == c;
        }
      } else {
        StripTagsKeepsOnlyInputChars(s[1..], c);
        if c in s[1..] {
          var j :| 0 <= j < |s[1..]| && s[1..][j] == c;
          assert s[1 + j] == c;
        }
      }
    }
  }

  /** The stripped text holds no complete tag. */
  lemma {:induction false} StripTagsLeavesNoTag(s: string)
    ensures NoCompleteTag(StripTags(s))
    decreases |s|
  {
    if s != [] {
      if s[0] == '<' && '>' in s[1..] {
        StripTagsLeavesNoTag(s[IndexOf(s[1..], '>') + 2..]);
      } else {
        var rest := StripTags(s[1..]);
        StripTagsLeavesNoTag(s[1..]);
        StripTagsKeepsOnlyInputChars(s[1..], '>');
        var r := [s[0]] + rest;
        forall i, j | 0 <= i < j < |r| ensures !(r[i] == '<' && r[j] == '>') {
          if i == 0 {
            assert r[j] == rest[j - 1];
            if s[0] == '<' {
              assert '>' !in rest;
              assert rest[j - 1] in rest;
            }
          } else {
            assert r[i] == rest[i - 1] && r[j] == rest[j - 1];
          }
        }
      }
    }
  }

  /** Text without a complete tag passes through unchanged. */
  lemma {:induction false} StripTagsKeepsTagless(s: string)
    requires NoCompleteTag(s)
    ensures StripTags(s) == s
    decreases |s|
  {
    if s != [] {
      assert !(s[0] == '<' && '>' in s[1..]) by {
        if s[0] == '<' {
          forall j | 0 <= j < |s[1..]| ensures s[1..][j] != '>' {
            assert s[1..][j] == s[j + 1];
          }
        }
      }
      assert NoCompleteTag(s[1..]) by {
        forall i, j | 0 <= i < j < |s[1..]| ensures !(s[1..][i] == '<' && s[1..][j] == '>') {
          assert s[1..][i] == s[i + 1] && s[1..][j] == s[j + 1];
        }
      }
      StripTagsKeepsTagless(s[1..]);
    }
  }

  /** Stripping twice is stripping once. */
  lemma StripTagsIdempotent(s: string)
    ensures StripTags(StripTags(s)) == StripTags(s)
  {
    StripTagsLeavesNoTag(s);
    StripTagsKeepsTagless(StripTags(s));
  }

  /** A tag `<t>` preceded by tag-free text is removed and nothing else. */
  lemma ConsConcat<T>(x: T, u: seq<T>, v: seq<T>)
    ensures [x] + (u + v) == ([x] + u) + v
  {
  }

  /** A character other than `<` is kept as it is. */
  lemma StripTagsPlain(c: char, rest: string)
    requires c != '<'
    ensures StripTags([c] + rest) == [c] + StripTags(rest)
  {
    assert ([c] + rest)[1..] == rest;
  }

  /** A tag at the very front is dropped whole. */
  lemma StripTagsDropsLeadingTag(t: string, b: string)
    requires '>' !in t
    ensures StripTags("<" + t + ">" + b) == StripTags(b)
  {
    var s := "<" + t + ">" + b;
    assert s[1..] == t + ">" + b;
    assert s[1..][|t|] == '>';
    assert IndexOf(s[1..], '>') == |t| by {
      assert s[1..][..|t|] == t;
    }
    assert s[|t| + 2..] == b;
  }

  lemma {:induction false} StripTagsDropsTag(a: string, t: string, b: string)
    requires '<' !in a && '>' !in t
    ensures StripTags(a + "<" + t + ">" + b) == a + StripTags(b)
    decreases |a|
  {
    if a == [] {
      assert a + "<" + t + ">" + b == "<" + t + ">" + b;
      StripTagsDropsLeadingTag(t, b);
    } else {
      var rest := a[1..] + "<" + t + ">" + b;
      assert a + "<" + t + ">" + b == [a[0]] + rest by {
        assert a == [a[0]] + a[1..];
      }
      assert a[0] != '<' by {
        assert a[0] in a;
      }
      StripTagsPlain(a[0], rest);
      StripTagsDropsTag(a[1..], t, b);
      ConsConcat(a[0], a[1..], StripTags(b));
      assert [a[0]] + a[1..] == a;
    }
  }

  // ---------------------------------------------------------------------
  // `sendEmail`: the options handed to the transport

  /** The options `sendEmail` passes to the transport (the fixed `from`
      header is not modelled). */
  datatype Message = Message(to: string, subject: string, text: string, html: Option<string>)

  /** The text body is `textContent` when it is non-empty and the HTML with
      its tags stripped otherwise; HTML is attached only when there is HTML
      and no text. */
  function MailOptions(to: string, subject: string, htmlContent: string, textContent: string): (m: Message)
    ensures m.to == to && m.subject == subject
    ensures textContent != "" ==> m.text == textContent && m.html == None
    ensures textContent == "" ==> m.text == StripTags(htmlContent) && NoCompleteTag(m.text)
    ensures textContent == "" ==> (m.html == if htmlContent != "" then Some(htmlContent) else None)
  {
    StripTagsLeavesNoTag(htmlContent);
    var textBody := if textContent != "" then textContent
                    else if htmlContent != "" then StripTags(htmlContent)
                    else "";
    Message(to, subject, textBody, if htmlContent != "" && textContent == "" then Some(htmlContent) else None)
  }

  // ---------------------------------------------------------------------
  // Per-recipient variables and the merge with the template's variables

  /** The `email` and `name` columns of a contact row. */
  datatype ContactRow = ContactRow(email: string, name: string)

  /** `contactInfo`: without a contact, the task's address and empty `nome`
      and `empresa`; with one, its address, its name or else the text before
      the first `@`, and the text between the first `@` and the next `.` (or
      `''`). */
  function RecipientVars(taskEmail: string, contact: Option<ContactRow>): (vs: Vars)
    ensures |vs| == 3 && vs[0].0 == "email" && vs[1].0 == "nome" && vs[2].0 == "empresa"
    ensures contact.None? ==> vs == [("email", Text(taskEmail)), ("nome", Text("")), ("empresa", Text(""))]
    ensures contact.Some? ==> vs[0].1 == Text(contact.value.email)
    ensures contact.Some? && contact.value.name != "" ==> vs[1].1 == Text(contact.value.name)
  {
    match contact
    case None => [("email", Text(taskEmail)), ("nome", Text("")), ("empresa", Text(""))]
    case Some(c) =>
      var atParts := Split(c.email, '@');
      [ ("email", Text(c.email)),
        ("nome", Text(if c.name != "" then c.name else atParts[0])),
        ("empresa", Text(if |atParts| >= 2 then Split(atParts[1], '.')[0] else "")) ]
  }

  /** For a valid address, `nome` falls back to the local part (what stands
      before the `@`), and `empresa` is the first label of the domain: a
      `.`-free prefix of the domain followed there by a `.`. */
  lemma RecipientVarsOfValidAddress(c: ContactRow)
    requires IsValidEmail(c.email)
    ensures var vs := RecipientVars(c.email, Some(c));
            var at := IndexOf(c.email, '@');
            var domain := c.email[at + 1..];
            && (c.name == "" ==> vs[1].1 == Text(c.email[..at]))
            && vs[2].1.Text?
            && var empresa := vs[2].1.s;
               && |empresa| < |domain| && domain[..|empresa|] == empresa
               && domain[|empresa|] == '.' && '.' !in empresa
  {
    var at := IndexOf(c.email, '@');
    var domain := c.email[at + 1..];
    assert Split(c.email, '@') == [c.email[..at]] + Split(domain, '@');
    assert Split(domain, '@') == [domain];
    assert |domain| >= 3;
    assert '.' in domain by {
      var inner := domain[1..|domain| - 1];
      var k := IndexOf(inner, '.');
      assert domain[k + 1] == '.';
    }
    var d := IndexOf(domain, '.');
    assert Split(domain, '.')[0] == domain[..d];
  }

  /** The keys of a variable object, in order. */
  function Keys(vars: Vars): seq<string> {
    seq(|vars|, i requires 0 <= i < |vars| => vars[i].0)
  }

  /** The entries of `base`, each with the value `over` gives its key if any. */
  function Override(base: Vars, over: Vars): Vars {
    seq(|base|, i requires 0 <= i < |base| => (base[i].0, Lookup(over, base[i].0).GetOr(base[i].1)))
  }

  /** The entries of `over` whose keys `base` lacks, in order. */
  function NewEntries(over: Vars, base: Vars): Vars {
    if over == [] then []
    else (if over[0].0 in Keys(base) then [] else [over[0]]) + NewEntries(over[1..], base)
  }

  /** `{ ...base, ...over }`: the keys of `base` keep their places, with the
      values of `over` where it has them, and the other keys of `over`
      follow. */
  function Merge(base: Vars, over: Vars): (m: Vars)
    ensures |m| >= |base| && forall i :: 0 <= i < |base| ==> m[i].0 == base[i].0
  {
    Override(base, over) + NewEntries(over, base)
  }

  lemma {:induction false} LookupAppend(a: Vars, b: Vars, k: string)
    ensures Lookup(a + b, k) == if Lookup(a, k).Some? then Lookup(a, k) else Lookup(b, k)
    decreases |a|
  {
    if a == [] {
      assert a + b == b;
    } else {
      assert (a + b)[1..] == a[1..] + b;
      LookupAppend(a[1..], b, k);
    }
  }

  lemma {:induction false} LookupKeys(vars: Vars, k: string)
    ensures Lookup(vars, k).Some? <==> k in Keys(vars)
    decreases |vars|
  {
    if vars != [] {
      LookupKeys(vars[1..], k);
      assert Keys(vars) == [vars[0].0] + Keys(vars[1..]);
    }
  }

  lemma {:induction false} LookupOverride(base: Vars, over: Vars, k: string)
    ensures Lookup(Override(base, over), k)
         == match Lookup(base, k)
            case None => None
            case Some(v) => Some(Lookup(over, k).GetOr(v))
    decreases |base|
  {
    if base != [] {
      assert Override(base, over)[1..] == Override(base[1..], over);
      LookupOverride(base[1..], over, k);
    }
  }

  lemma {:induction false} LookupNewEntries(over: Vars, base: Vars, k: string)
    ensures Lookup(NewEntries(over, base), k) == if k in Keys(base) then None else Lookup(over, k)
    decreases |over|
  {
    if over != [] {
      LookupNewEntries(over[1..], base, k);
      var head := if over[0].0 in Keys(base) then [] else [over[0]];
      LookupAppend(head, NewEntries(over[1..], base), k);
      if head != [] {
        assert head[1..] == [];
      }
    }
  }

  /** Merging into a template without variables gives the recipient's
      variables unchanged. */
  lemma {:induction false} MergeIntoEmpty(over: Vars)
    ensures Merge([], over) == over
  {
    assert Override([], over) == [];
    NewEntriesOfEmpty(over);
  }

  lemma {:induction false} NewEntriesOfEmpty(over: Vars)
    ensures NewEntries(over, []) == over
    decreases |over|
  {
    if over != [] {
      assert Keys([]) == [];
      NewEntriesOfEmpty(over[1..]);
    }
  }

  /** Contact-derived variables override template variables of the same
      name; every other name keeps the template's value. */
  lemma MergeLookup(base: Vars, over: Vars, k: string)
    ensures Lookup(Merge(base, over), k) == if Lookup(over, k).Some? then Lookup(over, k) else Lookup(base, k)
  {
    LookupAppend(Override(base, over), NewEntries(over, base), k);
    LookupOverride(base, over, k);
    LookupNewEntries(over, base, k);
    LookupKeys(base, k);
  }

  // ---------------------------------------------------------------------
  // The whole message

  /** The options handed to the transport for a task addressed to
      `taskEmail`, rendered from `tpl` with the template's variables
      overridden by the recipient's. */
  function ComposeMessage(taskEmail: string, tpl: Template, contact: Option<ContactRow>): (m: Message)
    ensures m.to == taskEmail
  {
    var vars := Merge(tpl.variables, RecipientVars(taskEmail, contact));
    var subject := Render(tpl.subject, vars);
    var text := Render(tpl.textContent, vars);
    var html := if tpl.htmlContent != "" then Render(tpl.htmlContent, vars) else "";
    MailOptions(taskEmail, subject, html, text)
  }

  // ---------------------------------------------------------------------
  // A worked example: `jo@ac.io`, stored without a name, and a template
  // whose only body is the HTML `<b>{{nome}}</b>`

  lemma SplitExampleAddress()
    ensures Split("jo@ac.io", '@') == ["jo", "ac.io"]
    ensures Split("ac.io", '.') == ["ac", "io"]
  {
    JoinSplit(["jo", "ac.io"], '@');
    assert ["jo", "ac.io"][1..] == ["ac.io"];
    assert "jo" + ['@'] + "ac.io" == "jo@ac.io";
    JoinSplit(["ac", "io"], '.');
    assert ["ac", "io"][1..] == ["io"];
    assert "ac" + ['.'] + "io" == "ac.io";
  }

  /** The recipient variables of `jo@ac.io` with no stored name. */
  lemma ExampleVars()
    ensures RecipientVars("jo@ac.io", Some(ContactRow("jo@ac.io", "")))
         == [("email", Text("jo@ac.io")), ("nome", Text("jo")), ("empresa", Text("ac"))]
  {
    SplitExampleAddress();
  }

  /** The HTML of the example as pieces. */
  lemma ExamplePieces()
    ensures var ps := [Lit("<b>"), Hole("nome"), Lit("</b>")];
            Compose(ps) == "<b>{{nome}}</b>" && WellFormed(ps)
  {
    var ps := [Lit("<b>"), Hole("nome"), Lit("</b>")];
    assert ps[1..][1..][1..] == [];
  }

  lemma ExampleFilled(vars: Vars)
    requires vars == [("email", Text("jo@ac.io")), ("nome", Text("jo")), ("empresa", Text("ac"))]
    ensures PlainVars(vars)
    ensures Compose(Fill([Lit("<b>"), Hole("nome"), Lit("</b>")], vars)) == "<b>jo</b>"
  {
    var filled := [Lit("<b>"), Lit("jo"), Lit("</b>")];
    assert vars[1..][0] == ("nome", Text("jo"));
    assert Lookup(vars, "nome") == Some(Text("jo"));
    assert Fill([Lit("<b>"), Hole("nome"), Lit("</b>")], vars) == filled;
    assert filled[1..][1..][1..] == [];
  }

  /** Rendering `<b>{{nome}}</b>` with those variables. */
  lemma ExampleHtml(vars: Vars)
    requires vars == [("email", Text("jo@ac.io")), ("nome", Text("jo")), ("empresa", Text("ac"))]
    ensures Render("<b>{{nome}}</b>", vars) == "<b>jo</b>"
  {
    ExamplePieces();
    ExampleFilled(vars);
    RenderFillsPlaceholders([Lit("<b>"), Hole("nome"), Lit("</b>")], vars);
  }

  lemma ExampleStrip()
    ensures StripTags("<b>jo</b>") == "jo"
  {
    assert "" + "<" + "b" + ">" + "jo</b>" == "<b>jo</b>";
    assert "jo" + "<" + "/b" + ">" + "" == "jo</b>";
    StripTagsDropsTag("", "b", "jo</b>");
    StripTagsDropsTag("jo", "/b", "");
  }

  /** A template with empty text and HTML `<b>{{nome}}</b>`, sent to the
      contact `jo@ac.io` stored without a name: the text body is the
      rendered HTML without its tags, and the rendered HTML is attached. */
  lemma HtmlFallbackExample()
    ensures var tpl := Template("Hello", "<b>{{nome}}</b>", "", []);
            var m := ComposeMessage("jo@ac.io", tpl, Some(ContactRow("jo@ac.io", "")));
            m.text == "jo" && m.html == Some("<b>jo</b>")
  {
    ExampleVars();
    var vars := [("email", Text("jo@ac.io")), ("nome", Text("jo")), ("empresa", Text("ac"))];
    MergeIntoEmpty(vars);
    ExampleHtml(vars);
    RenderWithoutPlaceholders("", vars);
    ExampleStrip();
  }
}
