/** The method recogniser of s_start_req and s_req_method is exact: it accepts the 26
    names of the method table and nothing else. */
module HttpMethods {
  import opened Wrappers
  import opened HttpTypes
  import opened HttpSwitch
  import opened HttpRun
  import opened HttpMarks
  import opened HttpReading

  // The method the parser supposes after the first i characters of m's name
  function Supposed(m: Method, i: nat): Method {
    match m
    case CHECKOUT => if i <= 1 then CONNECT else m
    case COPY => if i <= 2 then CONNECT else m
    case MOVE | MERGE | MSEARCH => if i <= 1 then MKCOL else m
    case MKACTIVITY => if i <= 2 then MKCOL else m
    case SEARCH => if i <= 1 then SUBSCRIBE else m
    case PROPFIND | PUT | PATCH => if i <= 1 then POST else m
    case PURGE => if i <= 1 then POST else if i <= 2 then PUT else m
    case PROPPATCH => if i <= 1 then POST else if i <= 4 then PROPFIND else m
    case UNSUBSCRIBE => if i <= 2 then UNLOCK else m
    case _ => m
  }

  lemma FirstSupposed(m: Method)
    ensures FirstMethod(NameOf(m)[0]) == Some(Supposed(m, 1))
  {}

  // Reading on along m's name leads along the supposed methods
  lemma NextSupposed(m: Method, i: nat)
    requires 1 <= i < |NameOf(m)|
    ensures NextMethod(Supposed(m, i), i, NameOf(m)[i]) == Some(Supposed(m, i + 1))
  {}

  lemma SwitchSpells(m: Method, i: nat, ch: char)
    requires 1 <= i <= |NameOf(m)| && ch != CharAt(NameOf(m), i)
    ensures var r := NextMethod(m, i, ch);
            r.Some? ==> i < |NameOf(r.value)| && NameOf(r.value)[..i] == NameOf(m)[..i] && NameOf(r.value)[i] == ch
  {
    if m == CONNECT { SwitchFromConnect(i, ch); }
    else if m == MKCOL { SwitchFromMkcol(i, ch); }
    else { SwitchFromOther(m, i, ch); }
    hide NameOf, NextMethod;
  }

  lemma SwitchFromConnect(i: nat, ch: char)
    requires 1 <= i <= 7 && ch != CharAt(NameOf(CONNECT), i)
    ensures var r := NextMethod(CONNECT, i, ch);
            r.Some? ==>
              i < |NameOf(r.value)| && NameOf(r.value)[..i] == NameOf(CONNECT)[..i] && NameOf(r.value)[i] == ch
  {}

  lemma SwitchFromMkcol(i: nat, ch: char)
    requires 1 <= i <= 5 && ch != CharAt(NameOf(MKCOL), i)
    ensures var r := NextMethod(MKCOL, i, ch);
            r.Some? ==> i < |NameOf(r.value)| && NameOf(r.value)[..i] == NameOf(MKCOL)[..i] && NameOf(r.value)[i] == ch
  {}

  lemma SwitchAtOne(m: Method, ch: char)
    requires m != CONNECT && m != MKCOL && ch != CharAt(NameOf(m), 1)
    ensures var r := NextMethod(m, 1, ch);
            r.Some? ==> 1 < |NameOf(r.value)| && NameOf(r.value)[..1] == NameOf(m)[..1] && NameOf(r.value)[1] == ch
  {}

  lemma SwitchLater(m: Method, i: nat, ch: char)
    requires m != CONNECT && m != MKCOL && 1 < i <= |NameOf(m)| && ch != CharAt(NameOf(m), i)
    ensures var r := NextMethod(m, i, ch);
            r.Some? ==> i < |NameOf(r.value)| && NameOf(r.value)[..i] == NameOf(m)[..i] && NameOf(r.value)[i] == ch
  {}

  lemma SwitchFromOther(m: Method, i: nat, ch: char)
    requires m != CONNECT && m != MKCOL && 1 <= i <= |NameOf(m)| && ch != CharAt(NameOf(m), i)
    ensures var r := NextMethod(m, i, ch);
            r.Some? ==> i < |NameOf(r.value)| && NameOf(r.value)[..i] == NameOf(m)[..i] && NameOf(r.value)[i] == ch
  {
    if i == 1 { SwitchAtOne(m, ch); } else { hide NextMethod; SwitchLater(m, i, ch); }
  }

  // Whatever the switches from name to name, what was read is a prefix of the name held now
  lemma NextSpells(m: Method, i: nat, ch: char)
    requires 1 <= i <= |NameOf(m)| && ch != '\0'
    ensures var r := NextMethod(m, i, ch);
            r.Some? ==> i < |NameOf(r.value)| && NameOf(r.value)[..i + 1] == NameOf(m)[..i] + [ch]
  {
    if ch == CharAt(NameOf(m), i) {
      hide NameOf;
    } else {
      SwitchSpells(m, i, ch);
      hide NameOf, NextMethod;
    }
  }

  lemma FirstSpells(ch: char)
    ensures var r := FirstMethod(ch); r.Some? ==> NameOf(r.value)[0] == ch && IsAlpha(ch)
  {}

  lemma NoSpaceInside(m: Method, i: nat)
    requires 1 <= i < |NameOf(m)|
    ensures NameOf(m)[i] != '\0' && NextMethod(m, i, ' ') == None
  {}

  // ---- on whole words ----

  predicate IsCrLf(c: char) { c == CR || c == LF }

  predicate HasNoSpace(w: string) { forall i :: 0 <= i < |w| ==> w[i] != ' ' }

  // What starts behind any leading line breaks and ends before a space
  predicate IsWord(w: string) { HasNoSpace(w) && (w != "" ==> !IsCrLf(w[0])) }

  // A parser waiting for a request, with room for n header bytes
  predicate Waiting(p: Parser, n: nat) {
    p.state == SStartReq && p.errno == OK && Room(p, n)
  }

  // The parser after n bytes of a method name
  function InMethod(p: Parser, m: Method, i: nat, n: nat): Parser {
    p.(flags := NO_FLAGS, contentLength := ULLONG_MAX, state := SReqMethod,
       verb := m, index := i, nread := p.nread + n)
  }

  lemma {:induction false} LeadingLines(p: Parser, lead: string)
    requires Waiting(p, |lead|) && forall c | c in lead :: IsCrLf(c)
    ensures Reads(p, lead, p.(nread := p.nread + |lead|), [])
    decreases |lead|
  {
    hide Run, ByteStep;
    if lead == "" { ReadsNothing(p); }
    else {
      var l := lead[..|lead| - 1];
      var ch := lead[|lead| - 1];
      assert lead == l + [ch] && ch in lead;
      assert forall c | c in l :: c in lead;
      var q := p.(nread := p.nread + |l|);
      LeadingLines(p, l);
      LeadStep(q, ch);
      ReadsMore(p, l, q, [], ch, p.(nread := p.nread + |lead|), []);
    }
  }

  lemma LeadStep(q: Parser, ch: char)
    requires Waiting(q, 1) && IsCrLf(ch)
    ensures Steps(q, ch, q.(nread := q.nread + 1), [])
  {
    hide Switch;
    StartDispatch(q.(nread := q.nread + 1), ch);
    StepsNext(q, ch, q.(nread := q.nread + 1), []);
    hide ByteStep;
  }

  // The method held after i characters of w
  function Held(w: string, i: nat): Option<Method>
    requires 1 <= i <= |w|
  {
    if i == 1 then FirstMethod(w[0])
    else
      match Held(w, i - 1)
      case Some(m) => if w[i - 1] == '\0' then None else NextMethod(m, i - 1, w[i - 1])
      case None => None
  }

  lemma {:induction false} HeldSpells(w: string, i: nat)
    requires 1 <= i <= |w|
    ensures Held(w, i).Some? ==> var m := Held(w, i).value; i <= |NameOf(m)| && NameOf(m)[..i] == w[..i]
  {
    hide NameOf, NextMethod, FirstMethod;
    if i == 1 {
      FirstSpells(w[0]);
      if Held(w, 1).Some? {
        NameLength(Held(w, 1).value);
        assert w[..1] == [w[0]];
        assert NameOf(Held(w, 1).value)[..1] == [NameOf(Held(w, 1).value)[0]];
      }
    } else {
      HeldSpells(w, i - 1);
      if Held(w, i).Some? {
        NextSpells(Held(w, i - 1).value, i - 1, w[i - 1]);
        assert w[..i] == w[..i - 1] + [w[i - 1]];
      }
    }
  }

  lemma {:induction false} HeldOnNames(m: Method, i: nat)
    requires 1 <= i <= |NameOf(m)|
    ensures Held(NameOf(m), i) == Some(Supposed(m, i))
  {
    hide NameOf, NextMethod, FirstMethod, Supposed;
    if i == 1 {
      FirstSupposed(m);
    } else {
      HeldOnNames(m, i - 1);
      NextSupposed(m, i - 1);
      NoSpaceInside(m, i - 1);
    }
  }

  lemma SupposedWhole(m: Method)
    ensures Supposed(m, |NameOf(m)|) == m
  {}

  // ---- the machine holds what Held says ----

  lemma FirstStep(p: Parser, ch: char)
    requires Waiting(p, 1) && ch != ' ' && !IsCrLf(ch)
    ensures match FirstMethod(ch)
      case Some(m) => Steps(p, ch, InMethod(p, m, 1, 1), [Told(MessageBegin)])
      case None => ByteStep(p, ch).end == Error && ByteStep(p, ch).p.errno == InvalidMethod
  {
    hide Switch, IsAlpha, FirstMethod;
    FirstSpells(ch);
    StartDispatch(p.(nread := p.nread + 1), ch);
    if FirstMethod(ch).Some? {
      StepsNext(p, ch, InMethod(p, FirstMethod(ch).value, 1, 1), [Notify(MessageBegin)]);
      assert Notes([Notify(MessageBegin)]) + Kept(SReqMethod, ch) == [Told(MessageBegin)];
    }
  }

  lemma MoreStep(p: Parser, m: Method, i: nat, ch: char)
    requires Waiting(p, i + 1) && 1 <= i <= |NameOf(m)| && ch != ' '
    ensures var q := InMethod(p, m, i, i);
      match (if ch == '\0' then None else NextMethod(m, i, ch))
      case Some(n) => Steps(q, ch, InMethod(p, n, i + 1, i + 1), [])
      case None => ByteStep(q, ch).end == Error && ByteStep(q, ch).p.errno == InvalidMethod
  {
    hide Switch, NextMethod, NameOf;
    var q := InMethod(p, m, i, i);
    if ch != '\0' && NextMethod(m, i, ch).Some? {
      MethodDispatch(q.(nread := q.nread + 1), ch);
      StepsNext(q, ch, InMethod(p, NextMethod(m, i, ch).value, i + 1, i + 1), []);
    } else {
      MethodDispatch(q.(nread := q.nread + 1), ch);
      StepsFail(q, ch, InvalidMethod);
    }
  }

  lemma LastStep(p: Parser, m: Method, i: nat)
    requires Waiting(p, i + 1) && 1 <= i <= |NameOf(m)|
    ensures var q := InMethod(p, m, i, i);
      if i == |NameOf(m)| then Steps(q, ' ', InMethod(p, m, i + 1, i + 1).(state := SReqSpacesBeforeUrl), [])
      else ByteStep(q, ' ').end == Error && ByteStep(q, ' ').p.errno == InvalidMethod
  {
    hide Switch;
    var q := InMethod(p, m, i, i);
    if i < |NameOf(m)| {
      NoSpaceInside(m, i);
      hide NextMethod, NameOf;
      MethodDispatch(q.(nread := q.nread + 1), ' ');
      StepsFail(q, ' ', InvalidMethod);
    } else {
      hide NextMethod, NameOf;
      MethodDispatch(q.(nread := q.nread + 1), ' ');
      StepsNext(q, ' ', InMethod(p, m, i + 1, i + 1).(state := SReqSpacesBeforeUrl), []);
    }
  }

  lemma {:induction false} WordRun(p: Parser, w: string, i: nat)
    requires 1 <= i <= |w| && Waiting(p, |w| + 1) && IsWord(w)
    ensures match Held(w, i)
      case Some(m) => Reads(p, w[..i], InMethod(p, m, i, i), [Told(MessageBegin)])
      case None => Run(p, w[..i]).end == Error && Run(p, w[..i]).p.errno == InvalidMethod
  {
    hide NextMethod, FirstMethod, NameOf, ByteStep, Run;
    var ch := w[i - 1];
    if i == 1 {
      assert w[..1] == "" + [ch];
      FirstStep(p, ch);
      ReadsNothing(p);
      if Held(w, 1).Some? {
        ReadsByte(p, ch, InMethod(p, Held(w, 1).value, 1, 1), [Told(MessageBegin)]);
        assert w[..1] == [ch];
      }
      else { ReadsThenFails(p, "", p, [], ch); }
    } else {
      WordRun(p, w, i - 1);
      HeldSpells(w, i - 1);
      assert w[..i] == w[..i - 1] + [ch];
      match Held(w, i - 1)
      case Some(m) =>
        MoreStep(p, m, i - 1, ch);
        var q := InMethod(p, m, i - 1, i - 1);
        if Held(w, i).Some? {
          ReadsMore(p, w[..i - 1], q, [Told(MessageBegin)], ch, InMethod(p, Held(w, i).value, i, i), []);
        } else {
          ReadsThenFails(p, w[..i - 1], q, [Told(MessageBegin)], ch);
        }
      case None =>
        RunSplit(p, w[..i - 1], [ch]);
    }
  }

  /** A word and a space are taken for a method exactly if the word is in the method
      table, and then the parser holds that method; any other word is HPE_INVALID_METHOD. */
  lemma MethodExact(p: Parser, w: string)
    requires w != "" && IsWord(w) && Waiting(p, |w| + 1)
    ensures var o := Run(p, w + " ");
      && (o.end == Ready <==> exists m :: NameOf(m) == w)
      && (o.end == Ready ==>
            && NameOf(o.p.verb) == w && o.trace == [Told(MessageBegin)] && o.used == |w| + 1
            && o.p == InMethod(p, o.p.verb, |w| + 1, |w| + 1).(state := SReqSpacesBeforeUrl))
      && (o.end != Ready ==> o.end == Error && o.p.errno == InvalidMethod)
  {
    hide NextMethod, FirstMethod, NameOf, ByteStep, Run;
    var n := |w|;
    assert w[..n] == w;
    WordRun(p, w, n);
    HeldSpells(w, n);
    forall m | NameOf(m) == w ensures Held(w, n) == Some(m) {
      HeldOnNames(m, n);
      SupposedWhole(m);
    }
    match Held(w, n)
    case Some(m) =>
      LastStep(p, m, n);
      var q := InMethod(p, m, n, n);
      if n == |NameOf(m)| {
        assert NameOf(m)[..n] == NameOf(m);
        ReadsMore(p, w, q, [Told(MessageBegin)], ' ', InMethod(p, m, n + 1, n + 1).(state := SReqSpacesBeforeUrl), []);
      } else {
        ReadsThenFails(p, w, q, [Told(MessageBegin)], ' ');
      }
    case None =>
      RunSplit(p, w, " ");
  }

  // The line breaks text begins with
  function LeadOf(text: string): (n: nat)
    ensures n <= |text| && (forall i :: 0 <= i < n ==> IsCrLf(text[i])) && (n < |text| ==> !IsCrLf(text[n]))
  {
    if text == "" || !IsCrLf(text[0]) then 0 else 1 + LeadOf(text[1..])
  }

  lemma NameIsWord(m: Method)
    ensures NameOf(m) != "" && IsWord(NameOf(m))
  {
    NameStarts(m);
    forall i | 1 <= i < |NameOf(m)| ensures NameOf(m)[i] != ' ' { NoSpaceInside(m, i); }
  }

  lemma NameStarts(m: Method)
    ensures NameOf(m) != "" && IsAlpha(NameOf(m)[0])
  {
    HeldOnNames(m, 1) by { NameLength(m); }
    FirstSpells(NameOf(m)[0]);
    NameLength(m);
  }

  lemma BlankFails(p: Parser)
    requires Waiting(p, 1)
    ensures ByteStep(p, ' ').end == Error && ByteStep(p, ' ').p.errno == InvalidMethod
  {}

  predicate IsMethodLine(text: string, lead: nat, m: Method) {
    lead <= |text| && text[lead..] == NameOf(m) && forall i :: 0 <= i < lead ==> IsCrLf(text[i])
  }

  lemma OnlyLead(text: string, lead: nat, m: Method)
    requires IsMethodLine(text, lead, m)
    ensures lead == LeadOf(text)
  {
    NameStarts(m);
    assert text[lead] == NameOf(m)[0];
  }

  /** For every text without a space: it and a space take the parser to the URL exactly if it is
      any line breaks and one of the 26 names behind them; all others are HPE_INVALID_METHOD. */
  lemma MethodLineExact(p: Parser, text: string)
    requires HasNoSpace(text) && Waiting(p, |text| + 1)
    ensures var o := Run(p, text + " ");
      && (o.end == Ready <==> exists lead: nat, m: Method :: IsMethodLine(text, lead, m))
      && (o.end == Ready ==>
            && o.p.state == SReqSpacesBeforeUrl && o.trace == [Told(MessageBegin)] && o.used == |text| + 1
            && exists lead: nat :: IsMethodLine(text, lead, o.p.verb))
      && (o.end != Ready ==> o.end == Error && o.p.errno == InvalidMethod)
  {
    hide Run, ByteStep, NameOf, IsMethodLine;
    var n := LeadOf(text);
    var lead, w := text[..n], text[n..];
    var q := p.(nread := p.nread + n);
    assert text + " " == lead + (w + " ") && HasNoSpace(w);
    LeadingLines(p, lead);
    ReadsFirst(p, lead, q, [], w + " ");
    if w == "" {
      BlankFails(q);
      OneByte(q, ' ');
      assert w + " " == [' '];
      forall m: Method ensures NameOf(m) != w { NameStarts(m); }
    } else {
      assert w[0] == text[n];
      MethodExact(q, w);
    }
    MethodLineIs(text);
  }

  lemma MethodLineIs(text: string)
    ensures forall m: Method, lead: nat :: IsMethodLine(text, lead, m) ==> NameOf(m) == text[LeadOf(text)..]
    ensures forall m: Method :: NameOf(m) == text[LeadOf(text)..] ==> IsMethodLine(text, LeadOf(text), m)
  {
    hide NameOf;
    forall m: Method, lead: nat | IsMethodLine(text, lead, m) ensures lead == LeadOf(text) { OnlyLead(text, lead, m); }
  }
}
