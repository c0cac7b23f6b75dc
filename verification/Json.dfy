/**
  The span scanner that finds values in an OCI index, manifest or config: strings
  are skipped, objects and arrays delimited by depth.  The reference is the JSON
  grammar (RFC 8259) as a printer with arbitrary whitespace.
 */
module Json {
  import opened Bits

  // ---- the grammar -------------------------------------------------------------------

  /** Values with their layout; strings and keys hold the raw text between the quotes. */
  datatype Value =
    | Text(raw: string)
    | Atom(word: string)
    | List(lead: string, items: Items)
    | Object(lead: string, members: Members)

  datatype Items = NoItems | Item(v: Value, trail: string, next: string, rest: Items)

  datatype Members = NoMembers | Member(key: string, gap1: string, gap2: string, v: Value, trail: string, next: string, rest: Members)

  predicate IsSpace(c: char)
  {
    c == ' ' || c == '\t' || c == '\n' || c == '\r'
  }

  predicate Blank(s: string)
  {
    forall i :: 0 <= i < |s| ==> IsSpace(s[i])
  }

  /** Characters that change nothing outside a string. */
  predicate IsPlain(c: char)
  {
    c != '"' && c != '{' && c != '}' && c != '[' && c != ']'
  }

  predicate Plain(s: string)
  {
    forall i :: 0 <= i < |s| ==> IsPlain(s[i])
  }

  /** Every quote, and every backslash, is escaped by a backslash. */
  predicate ValidRaw(raw: string)
  {
    raw == [] ||
    if raw[0] == '\\' then |raw| >= 2 && ValidRaw(raw[2..])
    else raw[0] != '"' && ValidRaw(raw[1..])
  }

  predicate ValidAtom(word: string)
  {
    word != [] && Plain(word) && forall i :: 0 <= i < |word| ==> !IsSpace(word[i]) && word[i] != ':'
  }

  predicate Valid(v: Value)
  {
    match v
    case Text(raw) => ValidRaw(raw)
    case Atom(word) => ValidAtom(word)
    case List(lead, items) => Blank(lead) && ValidItems(items)
    case Object(lead, members) => Blank(lead) && ValidMembers(members)
  }

  predicate ValidItems(xs: Items)
  {
    xs.Item? ==> Valid(xs.v) && Blank(xs.trail) && Blank(xs.next) && ValidItems(xs.rest)
  }

  predicate ValidMembers(ms: Members)
  {
    ms.Member? ==>
      && ValidRaw(ms.key) && Blank(ms.gap1) && Blank(ms.gap2) && Valid(ms.v)
      && Blank(ms.trail) && Blank(ms.next) && ValidMembers(ms.rest)
  }

  function Quoted(raw: string): string
  {
    "\"" + (raw + "\"")
  }

  function Print(v: Value): (s: string)
  {
    match v
    case Text(raw) => Quoted(raw)
    case Atom(word) => word
    case List(lead, items) => "[" + lead + PrintItems(items) + "]"
    case Object(lead, members) => "{" + lead + PrintMembers(members) + "}"
  }

  function PrintItems(xs: Items): string
  {
    match xs
    case NoItems => ""
    case Item(v, trail, next, rest) => Print(v) + (trail + Comma(rest.Item?, next)) + PrintItems(rest)
  }

  /** The separator before another element, if there is one. */
  function Comma(more: bool, next: string): string
  {
    if more then "," + next else ""
  }

  function PrintMembers(ms: Members): string
  {
    match ms
    case NoMembers => ""
    case Member(key, gap1, gap2, v, trail, next, rest) =>
      Quoted(key) + Colon(gap1, gap2) + Print(v) + (trail + Comma(rest.Member?, next)) + PrintMembers(rest)
  }

  function Colon(gap1: string, gap2: string): string
  {
    gap1 + ":" + gap2
  }

  // ---- the scanner -------------------------------------------------------------------

  /** Past the closing quote of a string whose opening quote was just before `p`. */
  function SkipBody(t: string, p: nat): (q: nat)
    requires p <= |t|
    ensures p <= q <= |t| && (p < |t| ==> p < q)
    decreases |t| - p
  {
    if p == |t| then |t|
    else if t[p] == '"' then p + 1
    else SkipBody(t, if t[p] == '\\' && p + 1 < |t| then p + 2 else p + 1)
  }

  function SkipSep(t: string, q: nat): (r: nat)
    requires q <= |t|
    ensures q <= r <= |t| && (forall i :: q <= i < r ==> t[i] in " \t\n\r:") && (r < |t| ==> t[r] !in " \t\n\r:")
    decreases |t| - q
  {
    if q < |t| && (IsSpace(t[q]) || t[q] == ':') then SkipSep(t, q + 1) else q
  }

  /** What a scan is looking for: the end of the value it started in, or a key at depth one. */
  datatype Goal = Close | Key(key: string)

  predicate Hits(t: string, p: nat, q: nat, depth: int, goal: Goal)
    requires p < q <= |t|
  {
    goal.Key? && depth == 1 && q - 1 - (p + 1) == |goal.key| && t[p + 1..q - 1] == goal.key
  }

  function Scan(t: string, p: nat, depth: int, goal: Goal): (r: Option<nat>)
    requires p <= |t|
    ensures r.Some? ==> r.value <= |t|
    decreases |t| - p
  {
    if p == |t| then None
    else if t[p] == '"' then
      var q := SkipBody(t, p + 1);
      if Hits(t, p, q, depth, goal) then Some(SkipSep(t, q)) else Scan(t, q, depth, goal)
    else if t[p] == '{' || t[p] == '[' then Scan(t, p + 1, depth + 1, goal)
    else if t[p] == '}' || t[p] == ']' then
      if goal.Close? && depth == 1 then Some(p + 1) else Scan(t, p + 1, depth - 1, goal)
    else Scan(t, p + 1, depth, goal)
  }

  // ---- scanning over printed text ------------------------------------------------------

  lemma AtFirst(t: string, p: nat, part: string)
    requires At(t, p, part) && part != []
    ensures p < |t| && t[p] == part[0] && At(t, p + 1, part[1..])
  {
    assert t[p..p + |part|][0] == t[p];
    assert t[p + 1..p + |part|] == t[p..p + |part|][1..];
  }

  lemma {:induction false} ScanPlain(t: string, p: nat, part: string, depth: int, goal: Goal)
    requires At(t, p, part) && Plain(part)
    ensures Scan(t, p, depth, goal) == Scan(t, p + |part|, depth, goal)
    decreases |part|
  {
    hide At;
    if part != [] {
      AtFirst(t, p, part);
      ScanPlain(t, p + 1, part[1..], depth, goal);
    }
  }

  lemma {:induction false} SkipRaw(t: string, p: nat, raw: string)
    requires ValidRaw(raw) && At(t, p, raw + "\"")
    ensures SkipBody(t, p) == p + |raw| + 1
    decreases |raw|
  {
    hide At;
    AtFirst(t, p, raw + "\"");
    if raw != [] {
      assert (raw + "\"")[1..] == raw[1..] + "\"";
      if raw[0] == '\\' {
        AtFirst(t, p + 1, raw[1..] + "\"");
        assert (raw[1..] + "\"")[1..] == raw[2..] + "\"";
        SkipRaw(t, p + 2, raw[2..]);
      } else {
        SkipRaw(t, p + 1, raw[1..]);
      }
    }
  }

  /** A string is one step: a hit exactly when it is the key, and skipped otherwise. */
  lemma ScanQuoted(t: string, p: nat, raw: string, depth: int, goal: Goal)
    requires ValidRaw(raw) && At(t, p, Quoted(raw))
    ensures p + |raw| + 2 <= |t|
    ensures Scan(t, p, depth, goal)
            == if goal.Key? && depth == 1 && raw == goal.key then Some(SkipSep(t, p + |raw| + 2))
               else Scan(t, p + |raw| + 2, depth, goal)
  {
    hide SkipBody, SkipSep;
    AtFirst(t, p, Quoted(raw));
    assert Quoted(raw)[1..] == raw + "\"";
    SkipRaw(t, p + 1, raw);
    assert t[p + 1..p + 1 + |raw|] == raw by {
      AtSplit(t, p + 1, raw, "\"");
    }
  }

  lemma BlankIsPlain(s: string)
    requires Blank(s)
    ensures Plain(s)
  {
  }

  lemma SeparatorIsPlain(trail: string, more: bool, next: string)
    requires Blank(trail) && Blank(next)
    ensures Plain(trail + Comma(more, next))
  {
  }

  lemma ScanOpen(t: string, p: nat, bracket: string, lead: string, depth: int, goal: Goal)
    requires bracket == "{" || bracket == "["
    requires At(t, p, bracket) && At(t, p + 1, lead) && Blank(lead)
    ensures Scan(t, p, depth, goal) == Scan(t, p + 1 + |lead|, depth + 1, goal)
  {
    hide At;
    AtFirst(t, p, bracket);
    BlankIsPlain(lead);
    ScanPlain(t, p + 1, lead, depth + 1, goal);
  }

  lemma ScanShut(t: string, p: nat, bracket: string, depth: int, goal: Goal)
    requires bracket == "}" || bracket == "]"
    requires At(t, p, bracket)
    ensures p + 1 <= |t|
    ensures Scan(t, p, depth, goal)
            == if goal.Close? && depth == 1 then Some(p + 1) else Scan(t, p + 1, depth - 1, goal)
  {
    AtFirst(t, p, bracket);
  }

  /** Deep enough inside, a value goes by without effect. */
  lemma {:induction false} ScanValue(t: string, p: nat, v: Value, depth: int, goal: Goal)
    requires Valid(v) && At(t, p, Print(v)) && depth >= 1
    requires goal.Key? && depth == 1 ==> v != Text(goal.key)
    ensures Scan(t, p, depth, goal) == Scan(t, p + |Print(v)|, depth, goal)
    decreases v
  {
    hide At, Scan, ValidRaw, Plain;
    match v
    case Text(raw) =>
      ScanQuoted(t, p, raw, depth, goal);
    case Atom(word) =>
      ScanPlain(t, p, word, depth, goal);
    case List(lead, items) =>
      AtSplit4(t, p, "[", lead, PrintItems(items), "]");
      ScanOpen(t, p, "[", lead, depth, goal);
      ScanItems(t, p + 1 + |lead|, items, depth + 1, goal);
      ScanShut(t, p + 1 + |lead| + |PrintItems(items)|, "]", depth + 1, goal);
    case Object(lead, members) =>
      AtSplit4(t, p, "{", lead, PrintMembers(members), "}");
      ScanOpen(t, p, "{", lead, depth, goal);
      ScanMembers(t, p + 1 + |lead|, members, depth + 1, goal);
      ScanShut(t, p + 1 + |lead| + |PrintMembers(members)|, "}", depth + 1, goal);
  }

  lemma {:induction false} ScanItems(t: string, p: nat, xs: Items, depth: int, goal: Goal)
    requires ValidItems(xs) && At(t, p, PrintItems(xs)) && depth >= 1 && (goal.Key? ==> depth >= 2)
    ensures Scan(t, p, depth, goal) == Scan(t, p + |PrintItems(xs)|, depth, goal)
    decreases xs
  {
    hide At, Scan, Plain, Print;
    match xs
    case NoItems =>
    case Item(v, trail, next, rest) =>
      var sep := trail + Comma(rest.Item?, next);
      AtSplit(t, p, Print(v) + sep, PrintItems(rest));
      AtSplit(t, p, Print(v), sep);
      ScanValue(t, p, v, depth, goal);
      SeparatorIsPlain(trail, rest.Item?, next);
      ScanPlain(t, p + |Print(v)|, sep, depth, goal);
      ScanItems(t, p + |Print(v)| + |sep|, rest, depth, goal);
  }

  lemma ColonIsPlain(gap1: string, gap2: string)
    requires Blank(gap1) && Blank(gap2)
    ensures Plain(Colon(gap1, gap2))
  {
  }

  /** Where the pieces of the first member lie. */
  lemma MemberParts(t: string, p: nat, ms: Members)
    requires ms.Member? && At(t, p, PrintMembers(ms))
    ensures var q, c, w, sep := Quoted(ms.key), Colon(ms.gap1, ms.gap2), Print(ms.v), ms.trail + Comma(ms.rest.Member?, ms.next);
            && At(t, p, q) && At(t, p + |q|, c) && At(t, p + |q| + |c|, w)
            && At(t, p + |q| + |c| + |w|, sep) && At(t, p + |q| + |c| + |w| + |sep|, PrintMembers(ms.rest))
            && |PrintMembers(ms)| == |q| + |c| + |w| + |sep| + |PrintMembers(ms.rest)|
  {
    hide At, Print;
    var q, c, w, sep := Quoted(ms.key), Colon(ms.gap1, ms.gap2), Print(ms.v), ms.trail + Comma(ms.rest.Member?, ms.next);
    AtSplit(t, p, q + c + w + sep, PrintMembers(ms.rest));
    AtSplit4(t, p, q, c, w, sep);
  }

  lemma {:induction false} ScanMembers(t: string, p: nat, ms: Members, depth: int, goal: Goal)
    requires ValidMembers(ms) && At(t, p, PrintMembers(ms)) && depth >= 1 && (goal.Key? ==> depth >= 2)
    ensures Scan(t, p, depth, goal) == Scan(t, p + |PrintMembers(ms)|, depth, goal)
    decreases ms
  {
    hide At, Scan, Plain, Print, Colon, ValidRaw;
    match ms
    case NoMembers =>
    case Member(key, gap1, gap2, v, trail, next, rest) =>
      MemberParts(t, p, ms);
      ScanMemberHead(t, p, ms, depth, goal);
      var at := p + |Quoted(key)| + |Colon(gap1, gap2)|;
      ScanValue(t, at, v, depth, goal);
      SeparatorIsPlain(trail, rest.Member?, next);
      var sep := trail + Comma(rest.Member?, next);
      ScanPlain(t, at + |Print(v)|, sep, depth, goal);
      ScanMembers(t, at + |Print(v)| + |sep|, rest, depth, goal);
  }

  /** A key that is not the one sought is passed, and its colon. */
  lemma ScanMemberHead(t: string, p: nat, ms: Members, depth: int, goal: Goal)
    requires ms.Member? && ValidMembers(ms) && At(t, p, PrintMembers(ms))
    requires goal.Key? && depth == 1 ==> ms.key != goal.key
    ensures var at := p + |Quoted(ms.key)| + |Colon(ms.gap1, ms.gap2)|;
            at <= |t| && Scan(t, p, depth, goal) == Scan(t, at, depth, goal)
  {
    hide At, Scan, Plain, Print, Colon, ValidRaw;
    MemberParts(t, p, ms);
    ScanQuoted(t, p, ms.key, depth, goal);
    ColonIsPlain(ms.gap1, ms.gap2);
    var at := p + |Quoted(ms.key)|;
    AtBounds(t, at, Colon(ms.gap1, ms.gap2));
    ScanPlain(t, at, Colon(ms.gap1, ms.gap2), depth, goal);
  }

  // ---- match_close -----------------------------------------------------------------------

  /** Started at an object or array, the scan ends exactly at its end, whatever follows. */
  lemma MatchCloseExact(t: string, p: nat, v: Value)
    requires Valid(v) && (v.List? || v.Object?) && At(t, p, Print(v))
    ensures Scan(t, p, 0, Close) == Some(p + |Print(v)|)
  {
    hide At, Scan;
    match v
    case List(lead, items) =>
      AtSplit4(t, p, "[", lead, PrintItems(items), "]");
      ScanOpen(t, p, "[", lead, 0, Close);
      ScanItems(t, p + 1 + |lead|, items, 1, Close);
      ScanShut(t, p + 1 + |lead| + |PrintItems(items)|, "]", 1, Close);
    case Object(lead, members) =>
      AtSplit4(t, p, "{", lead, PrintMembers(members), "}");
      ScanOpen(t, p, "{", lead, 0, Close);
      ScanMembers(t, p + 1 + |lead|, members, 1, Close);
      ScanShut(t, p + 1 + |lead| + |PrintMembers(members)|, "}", 1, Close);
  }

  // ---- find_key ----------------------------------------------------------------------------

  /** Where, in the printed members, the value of the first member named `key` begins. */
  function ValueAt(ms: Members, key: string): Option<nat>
  {
    match ms
    case NoMembers => None
    case Member(k, gap1, gap2, v, trail, next, rest) =>
      var at := |Quoted(k)| + |Colon(gap1, gap2)|;
      if k == key then Some(at)
      else
        match ValueAt(rest, key)
        case None => None
        case Some(o) => Some(at + |Print(v)| + |trail + Comma(rest.Member?, next)| + o)
  }

  /** A string VALUE equal to the key comes before any member of that name. */
  predicate Shadowed(ms: Members, key: string)
  {
    ms.Member? && ms.key != key && (ms.v == Text(key) || Shadowed(ms.rest, key))
  }

  function Shift(o: Option<nat>, n: nat): Option<nat>
  {
    match o
    case None => None
    case Some(x) => Some(n + x)
  }

  predicate IsSep(c: char)
  {
    IsSpace(c) || c == ':'
  }

  lemma {:induction false} SkipSepOver(t: string, p: nat, part: string)
    requires At(t, p, part) && forall i :: 0 <= i < |part| ==> IsSep(part[i])
    ensures SkipSep(t, p) == SkipSep(t, p + |part|)
    decreases |part|
  {
    hide At;
    if part != [] {
      AtFirst(t, p, part);
      SkipSepOver(t, p + 1, part[1..]);
    }
  }

  lemma ValueStart(t: string, p: nat, v: Value)
    requires Valid(v) && At(t, p, Print(v))
    ensures p <= |t| && SkipSep(t, p) == p
  {
    hide At, PrintItems, PrintMembers;
    AtFirst(t, p, Print(v));
  }

  /** The name sought leads to its value, across any layout of the colon. */
  lemma KeyLeadsToValue(t: string, p: nat, ms: Members)
    requires ms.Member? && ValidMembers(ms) && At(t, p, PrintMembers(ms))
    ensures Scan(t, p, 1, Key(ms.key)) == Some(p + |Quoted(ms.key)| + |Colon(ms.gap1, ms.gap2)|)
  {
    hide At, Scan, Print, ValidRaw, SkipSep, PrintMembers;
    MemberParts(t, p, ms);
    ScanQuoted(t, p, ms.key, 1, Key(ms.key));
    var at := p + |Quoted(ms.key)|;
    SkipSepOver(t, at, Colon(ms.gap1, ms.gap2));
    ValueStart(t, at + |Colon(ms.gap1, ms.gap2)|, ms.v);
  }

  /** A string value equal to the key is taken for it, and the scan stops short of every later value. */
  lemma ValueMisleads(t: string, p: nat, ms: Members, key: string)
    requires ms.Member? && ValidMembers(ms) && At(t, p, PrintMembers(ms))
    requires ms.key != key && ms.v == Text(key)
    ensures Scan(t, p, 1, Key(key)) != Shift(ValueAt(ms, key), p)
  {
    hide At, Scan, Print, ValidRaw, SkipSep, PrintMembers;
    MemberParts(t, p, ms);
    ScanMemberHead(t, p, ms, 1, Key(key));
    var at := p + |Quoted(ms.key)| + |Colon(ms.gap1, ms.gap2)|;
    assert Print(ms.v) == Quoted(key) by { PrintText(key); }
    ScanQuoted(t, at, key, 1, Key(key));
    if ValueAt(ms, key).Some? {
      var q := at + |Print(ms.v)|;
      assert ValueAt(NoMembers, key) == None;
      assert Comma(ms.rest.Member?, ms.next) == "," + ms.next;
      AtSplit(t, q, ms.trail, "," + ms.next);
      SkipSepOver(t, q, ms.trail);
      CommaStops(t, q + |ms.trail|, ms.next);
    }
  }

  lemma PrintText(raw: string)
    ensures Print(Text(raw)) == Quoted(raw)
  {
  }

  lemma CommaStops(t: string, p: nat, next: string)
    requires At(t, p, "," + next)
    ensures p < |t| && SkipSep(t, p) == p
  {
    AtFirst(t, p, "," + next);
  }

  lemma ScanToEnd(t: string, p: nat, tail: string, goal: Goal)
    requires goal.Key? && Plain(tail) && At(t, p, "}" + tail) && |t| == p + 1 + |tail|
    ensures Scan(t, p, 1, goal) == None
  {
    hide At;
    AtSplit(t, p, "}", tail);
    ScanShut(t, p, "}", 1, goal);
    ScanPlain(t, p + 1, tail, 0, goal);
  }

  lemma {:induction false} FindInMembers(t: string, p: nat, ms: Members, tail: string, key: string)
    requires ValidMembers(ms) && Plain(tail) && At(t, p, PrintMembers(ms) + ("}" + tail))
    requires |t| == p + |PrintMembers(ms)| + 1 + |tail|
    ensures Scan(t, p, 1, Key(key)) == Shift(ValueAt(ms, key), p) <==> !Shadowed(ms, key)
    decreases ms
  {
    hide At, Scan, Print, ValidRaw, Plain, Colon, Quoted, Comma;
    AtSplit(t, p, PrintMembers(ms), "}" + tail);
    match ms
    case NoMembers =>
      assert PrintMembers(ms) == "";
      ScanToEnd(t, p, tail, Key(key));
    case Member(k, gap1, gap2, v, trail, next, rest) =>
      MemberParts(t, p, ms);
      if k == key {
        KeyLeadsToValue(t, p, ms);
      } else if v == Text(key) {
        ValueMisleads(t, p, ms, key);
      } else {
        ScanMemberHead(t, p, ms, 1, Key(key));
        var at := p + |Quoted(k)| + |Colon(gap1, gap2)|;
        ScanValue(t, at, v, 1, Key(key));
        SeparatorIsPlain(trail, rest.Member?, next);
        var sep := trail + Comma(rest.Member?, next);
        ScanPlain(t, at + |Print(v)|, sep, 1, Key(key));
        var p' := at + |Print(v)| + |sep|;
        AtSplit(t, p', PrintMembers(rest), "}" + tail);
        FindInMembers(t, p', rest, tail, key);
      }
  }

  /**
    Looking a key up in an object finds the value of the first member of that
    name, or nothing when there is none, if and only if no earlier string value
    of the object spells the key.
   */
  lemma FindKeyExact(lead: string, o: Value, tail: string, key: string)
    requires Valid(o) && o.Object? && Blank(lead) && Plain(tail)
    ensures var t, start := lead + Print(o) + tail, |lead| + 1 + |o.lead|;
            Scan(t, 0, 0, Key(key)) == Shift(ValueAt(o.members, key), start) <==> !Shadowed(o.members, key)
  {
    hide Scan, Plain, PrintMembers, ValidMembers, Shadowed, ValueAt;
    var t := lead + Print(o) + tail;
    var body := PrintMembers(o.members);
    assert t == lead + ("{" + o.lead) + (body + ("}" + tail));
    assert At(t, 0, lead);
    assert At(t, |lead|, "{") && At(t, |lead| + 1, o.lead);
    assert At(t, |lead| + 1 + |o.lead|, body + ("}" + tail));
    BlankIsPlain(lead);
    ScanPlain(t, 0, lead, 0, Key(key));
    ScanOpen(t, |lead|, "{", o.lead, 0, Key(key));
    FindInMembers(t, |lead| + 1 + |o.lead|, o.members, tail, key);
  }

  /** The lookup does go wrong: asked for k in {"a":"k","k":1}. */
  lemma FindKeyMisled()
    ensures var ms := Member("a", "", "", Text("k"), "", "", Member("k", "", "", Atom("1"), "", "", NoMembers));
            Scan(Print(Object("", ms)), 0, 0, Key("k")) != Shift(ValueAt(ms, "k"), 1)
  {
    hide Scan, Print, ValueAt;
    var ms := Member("a", "", "", Text("k"), "", "", Member("k", "", "", Atom("1"), "", "", NoMembers));
    assert ValidRaw("k"[1..]) && ValidRaw("a"[1..]);
    assert Shadowed(ms, "k");
    assert "" + Print(Object("", ms)) + "" == Print(Object("", ms));
    FindKeyExact("", Object("", ms), "", "k");
  }

  // ---- the loops -----------------------------------------------------------------------------

  method SkipString(t: string, p0: nat) returns (p: nat)
    requires p0 < |t|
    ensures p == SkipBody(t, p0 + 1)
  {
    p := p0 + 1;
    while p < |t| && t[p] != '"'
      invariant p <= |t| && SkipBody(t, p) == SkipBody(t, p0 + 1)
    {
      if t[p] == '\\' && p + 1 < |t| {
        p := p + 1;
      }
      p := p + 1;
    }
    if p < |t| {
      p := p + 1;
    }
  }

  method MatchClose(t: string, p0: nat) returns (p: nat)
    requires p0 <= |t|
    ensures p == match Scan(t, p0, 0, Close) case Some(q) => q case None => |t|
  {
    hide SkipBody, SkipSep;
    var depth := 0;
    p := p0;
    while p < |t|
      invariant p <= |t| && Scan(t, p, depth, Close) == Scan(t, p0, 0, Close)
    {
      if t[p] == '"' {
        p := SkipString(t, p);
        continue;
      }
      if t[p] == '{' || t[p] == '[' {
        depth := depth + 1;
      } else if t[p] == '}' || t[p] == ']' {
        depth := depth - 1;
        if depth == 0 {
          return p + 1;
        }
      }
      p := p + 1;
    }
    return |t|;
  }

  method FindKey(t: string, p0: nat, key: string) returns (r: Option<nat>)
    requires p0 <= |t|
    ensures r == Scan(t, p0, 0, Key(key))
  {
    hide SkipBody;
    var depth, p := 0, p0;
    while p < |t|
      invariant p <= |t| && Scan(t, p, depth, Key(key)) == Scan(t, p0, 0, Key(key))
    {
      if t[p] == '"' {
        var s := p + 1;
        var q := SkipString(t, p);
        if depth == 1 && q - 1 - s == |key| && t[s..s + |key|] == key {
          ghost var q0 := q;
          while q < |t| && (t[q] == ' ' || t[q] == ':' || t[q] == '\t' || t[q] == '\n' || t[q] == '\r')
            invariant q0 <= q <= |t| && SkipSep(t, q) == SkipSep(t, q0)
          {
            q := q + 1;
          }
          return Some(q);
        }
        p := q;
        continue;
      }
      if t[p] == '{' || t[p] == '[' {
        depth := depth + 1;
      } else if t[p] == '}' || t[p] == ']' {
        depth := depth - 1;
      }
      p := p + 1;
    }
    return None;
  }
}
