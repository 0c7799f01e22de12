/** The ham-URI of section 4.2.1 of RFC 7046: a character-driven state machine, the grammar
    it recognises, and the cache in front of it. */
module HamUri {

  import opened Basics

  datatype Phase = InScheme | InNamespace | InGroup | InInstantiation | InPort | InCredentials

  /** The parser's components while it runs; waitForBracket is set inside "[...]". */
  datatype Machine = Machine(
    phase: Phase,
    waitForBracket: bool,
    scheme: string,
    ns: string,
    group: string,
    instantiation: string,
    port: string,
    credentials: string)

  const START := Machine(InScheme, false, "", "", "", "", "", "")

  function Lower(c: char): char {
    if 'A' <= c <= 'Z' then c - 'A' + 'a' else c
  }

  function LowerAll(s: string): (r: string)
    ensures |r| == |s|
  {
    seq(|s|, i requires 0 <= i < |s| => Lower(s[i]))
  }

  /** Whether the machine waits for "]" after the character. */
  function Waits(wait: bool, c: char): bool {
    if c == ']' then false else wait || c == '['
  }

  function Consume(m: Machine, c: char): Machine {
    match m.phase
    case InScheme =>
      if c == ':' then m.(phase := InNamespace) else m.(scheme := m.scheme + [c])
    case InNamespace =>
      if c == ':' then m.(phase := InGroup) else m.(ns := m.ns + [c])
    case InGroup =>
      if !m.waitForBracket && c == '@' then m.(phase := InInstantiation)
      else if !m.waitForBracket && c == ':' then m.(phase := InPort)
      else if !m.waitForBracket && c == '/' then m.(phase := InCredentials)
      else m.(group := m.group + [c], waitForBracket := Waits(m.waitForBracket, c))
    case InInstantiation =>
      if !m.waitForBracket && c == ':' then m.(phase := InPort)
      else if !m.waitForBracket && c == '/' then m.(phase := InCredentials)
      else m.(instantiation := m.instantiation + [c], waitForBracket := Waits(m.waitForBracket, c))
    case InPort =>
      if c == '/' then m.(phase := InCredentials) else m.(port := m.port + [c])
    case InCredentials =>
      m.(credentials := m.credentials + [c])
  }

  /** The machine after the whole string, which is already lower-case. */
  function Feed(m: Machine, s: string): Machine
    decreases |s|
  {
    if s == [] then m else Feed(Consume(m, s[0]), s[1..])
  }

  function Scan(s: string): Machine { Feed(START, s) }

  predicate Complete(m: Machine) {
    m.scheme == "ham" && m.ns != "" && m.group != "" && !m.waitForBracket
  }

  /** What the public object offers; the empty URI stands for every string that is no URI. */
  datatype Uri = Uri(str: string, ns: string, group: string, instantiation: string, port: string, credentials: string)

  const EMPTY_URI := Uri("", "", "", "", "", "")

  /** An address in brackets loses its first and last character. */
  function Unbracketed(s: string): string {
    if |s| >= 2 && s[0] == '[' then s[1..|s| - 1] else s
  }

  function FromString(s: string): Uri {
    var lower := LowerAll(s);
    var m := Scan(lower);
    if Complete(m)
    then Uri(lower, m.ns, Unbracketed(m.group), Unbracketed(m.instantiation), m.port, m.credentials)
    else EMPTY_URI
  }

  // ---- the grammar

  /** ham-URI = "ham" ":" namespace ":" group [ "@" instantiation ] [ ":" port ] [ "/" credentials ] */
  datatype Parts = Parts(
    ns: string,
    group: string,
    instantiation: Option<string>,
    port: Option<string>,
    credentials: Option<string>)

  datatype Brackets = Outside | Inside | Broken

  function BracketStep(b: Brackets, c: char, delimiters: set<char>): Brackets {
    match b
    case Broken => Broken
    case Outside => if c in delimiters then Broken else if c == '[' then Inside else Outside
    case Inside => if c == ']' then Outside else Inside
  }

  /** Reads a component from the left: Broken once a delimiter occurs outside of brackets. */
  function BracketScan(b: Brackets, s: string, delimiters: set<char>): Brackets
    decreases |s|
  {
    if s == [] then b else BracketScan(BracketStep(b, s[0], delimiters), s[1..], delimiters)
  }

  predicate Balanced(s: string, delimiters: set<char>) {
    BracketScan(Outside, s, delimiters) == Outside
  }

  ghost predicate WellFormed(p: Parts) {
    && p.ns != "" && ':' !in p.ns
    && p.group != "" && Balanced(p.group, {'@', ':', '/'})
    && (p.instantiation.Some? ==> Balanced(p.instantiation.value, {':', '/'}))
    && (p.port.Some? ==> '/' !in p.port.value)
  }

  function Optional(delimiter: char, o: Option<string>): string {
    if o.Some? then [delimiter] + o.value else []
  }

  function Print(p: Parts): string {
    "ham:" + p.ns + ":" + p.group + Optional('@', p.instantiation) + Optional(':', p.port) + Optional('/', p.credentials)
  }

  function OrEmpty(o: Option<string>): string { if o.Some? then o.value else "" }

  /** The machine's components for the parts: an absent part reads as an empty one. */
  ghost predicate Shows(m: Machine, p: Parts) {
    && m.ns == p.ns && m.group == p.group && m.instantiation == OrEmpty(p.instantiation)
    && m.port == OrEmpty(p.port) && m.credentials == OrEmpty(p.credentials)
  }

  // ---- the machine with a record of the delimiters taken

  datatype Record = Record(
    scheme: string,
    ns: Option<string>,
    group: Option<string>,
    instantiation: Option<string>,
    port: Option<string>,
    credentials: Option<string>)

  function JoinedToGroup(r: Record): string {
    r.scheme + Optional(':', r.ns) + Optional(':', r.group)
  }

  function JoinedToPort(r: Record): string {
    JoinedToGroup(r) + Optional('@', r.instantiation) + Optional(':', r.port)
  }

  /** All components with the delimiters taken. */
  function Joined(r: Record): string { JoinedToPort(r) + Optional('/', r.credentials) }

  function Append(o: Option<string>, c: char): Option<string> {
    Some(OrEmpty(o) + [c])
  }

  /** The same transitions as Consume, keeping apart absent and empty components. */
  function Note(r: Record, m: Machine, c: char): Record {
    match m.phase
    case InScheme => if c == ':' then r.(ns := Some("")) else r.(scheme := r.scheme + [c])
    case InNamespace => if c == ':' then r.(group := Some("")) else r.(ns := Append(r.ns, c))
    case InGroup =>
      if !m.waitForBracket && c == '@' then r.(instantiation := Some(""))
      else if !m.waitForBracket && c == ':' then r.(port := Some(""))
      else if !m.waitForBracket && c == '/' then r.(credentials := Some(""))
      else r.(group := Append(r.group, c))
    case InInstantiation =>
      if !m.waitForBracket && c == ':' then r.(port := Some(""))
      else if !m.waitForBracket && c == '/' then r.(credentials := Some(""))
      else r.(instantiation := Append(r.instantiation, c))
    case InPort => if c == '/' then r.(credentials := Some("")) else r.(port := Append(r.port, c))
    case InCredentials => r.(credentials := Append(r.credentials, c))
  }

  datatype Tracked = Tracked(m: Machine, r: Record)

  const TRACKED_START := Tracked(START, Record("", None, None, None, None, None))

  function Track(t: Tracked, s: string): Tracked
    decreases |s|
  {
    if s == [] then t else Track(Tracked(Consume(t.m, s[0]), Note(t.r, t.m, s[0])), s[1..])
  }

  /** Which components are present in which phase, and what they cannot contain. */
  ghost predicate Agrees(m: Machine, r: Record) {
    && m.scheme == r.scheme && m.ns == OrEmpty(r.ns) && m.group == OrEmpty(r.group)
    && m.instantiation == OrEmpty(r.instantiation) && m.port == OrEmpty(r.port) && m.credentials == OrEmpty(r.credentials)
    && (r.ns.Some? <==> m.phase != InScheme)
    && (r.group.Some? <==> m.phase !in {InScheme, InNamespace})
    && (r.instantiation.Some? ==> m.phase !in {InScheme, InNamespace, InGroup})
    && (m.phase == InInstantiation ==> r.instantiation.Some?)
    && (r.port.Some? ==> m.phase in {InPort, InCredentials})
    && (m.phase == InPort ==> r.port.Some?)
    && (r.credentials.Some? <==> m.phase == InCredentials)
    && ':' !in m.ns
    && BracketScan(Outside, m.group, {'@', ':', '/'}) == (if m.phase == InGroup && m.waitForBracket then Inside else Outside)
    && BracketScan(Outside, m.instantiation, {':', '/'}) == (if m.phase == InInstantiation && m.waitForBracket then Inside else Outside)
    && '/' !in m.port
    && (m.waitForBracket ==> m.phase in {InGroup, InInstantiation})
  }

  lemma {:induction false} BracketAppend(b: Brackets, s: string, c: char, delimiters: set<char>)
    ensures BracketScan(b, s + [c], delimiters) == BracketStep(BracketScan(b, s, delimiters), c, delimiters)
    decreases |s|
  {
    if s == [] {
      assert (s + [c])[1..] == [];
    } else {
      assert (s + [c])[1..] == s[1..] + [c];
      BracketAppend(BracketStep(b, s[0], delimiters), s[1..], c, delimiters);
    }
  }

  // ---- every accepted string is a print

  lemma SchemeAgrees(m: Machine, r: Record, c: char)
    requires Agrees(m, r) && m.phase in {InScheme, InNamespace}
    ensures Agrees(Consume(m, c), Note(r, m, c))
  {
  }

  lemma GroupAgrees(m: Machine, r: Record, c: char)
    requires Agrees(m, r) && m.phase == InGroup
    ensures Agrees(Consume(m, c), Note(r, m, c))
  {
    BracketAppend(Outside, m.group, c, {'@', ':', '/'});
  }

  lemma InstantiationAgrees(m: Machine, r: Record, c: char)
    requires Agrees(m, r) && m.phase == InInstantiation
    ensures Agrees(Consume(m, c), Note(r, m, c))
  {
    BracketAppend(Outside, m.instantiation, c, {':', '/'});
  }

  lemma PortAgrees(m: Machine, r: Record, c: char)
    requires Agrees(m, r) && m.phase in {InPort, InCredentials}
    ensures Agrees(Consume(m, c), Note(r, m, c))
  {
  }

  /** Appending to the last component, or opening the next one, appends to the join. */
  lemma AppendJoins(front: string, delimiter: char, o: Option<string>, c: char)
    requires o.Some?
    ensures front + Optional(delimiter, Append(o, c)) == front + Optional(delimiter, o) + [c]
  {
    assert Optional(delimiter, Append(o, c)) == Optional(delimiter, o) + [c];
  }

  lemma SchemeJoins(m: Machine, r: Record, c: char)
    requires Agrees(m, r) && m.phase in {InScheme, InNamespace}
    ensures Joined(Note(r, m, c)) == Joined(r) + [c]
  {
  }

  lemma GroupJoins(m: Machine, r: Record, c: char)
    requires Agrees(m, r) && m.phase == InGroup
    ensures Joined(Note(r, m, c)) == Joined(r) + [c]
  {
    AppendJoins(r.scheme + Optional(':', r.ns), ':', r.group, c);
  }

  lemma InstantiationJoins(m: Machine, r: Record, c: char)
    requires Agrees(m, r) && m.phase == InInstantiation
    ensures Joined(Note(r, m, c)) == Joined(r) + [c]
  {
    AppendJoins(JoinedToGroup(r), '@', r.instantiation, c);
  }

  lemma PortJoins(m: Machine, r: Record, c: char)
    requires Agrees(m, r) && m.phase == InPort
    ensures Joined(Note(r, m, c)) == Joined(r) + [c]
  {
    AppendJoins(JoinedToGroup(r) + Optional('@', r.instantiation), ':', r.port, c);
  }

  lemma CredentialsJoins(m: Machine, r: Record, c: char)
    requires Agrees(m, r) && m.phase == InCredentials
    ensures Joined(Note(r, m, c)) == Joined(r) + [c]
  {
    AppendJoins(JoinedToPort(r), '/', r.credentials, c);
  }

  lemma StepAgrees(m: Machine, r: Record, c: char)
    requires Agrees(m, r)
    ensures Agrees(Consume(m, c), Note(r, m, c)) && Joined(Note(r, m, c)) == Joined(r) + [c]
  {
    match m.phase
    case InScheme => SchemeAgrees(m, r, c); SchemeJoins(m, r, c);
    case InNamespace => SchemeAgrees(m, r, c); SchemeJoins(m, r, c);
    case InGroup => GroupAgrees(m, r, c); GroupJoins(m, r, c);
    case InInstantiation => InstantiationAgrees(m, r, c); InstantiationJoins(m, r, c);
    case InPort => PortAgrees(m, r, c); PortJoins(m, r, c);
    case InCredentials => PortAgrees(m, r, c); CredentialsJoins(m, r, c);
  }

  /** At every point, the components joined with the delimiters taken are the input so far. */
  lemma {:induction false} TrackAgrees(t: Tracked, s: string)
    requires Agrees(t.m, t.r)
    ensures Agrees(Track(t, s).m, Track(t, s).r) && Joined(Track(t, s).r) == Joined(t.r) + s
    ensures Track(t, s).m == Feed(t.m, s)
    decreases |s|
  {
    if s == [] {
      assert Joined(t.r) + s == Joined(t.r);
    } else {
      var next := Next(t, s[0]);
      TrackAgrees(next, s[1..]);
      FirstMoved(Joined(t.r), s);
    }
  }

  lemma FirstMoved(front: string, s: string)
    requires s != []
    ensures front + [s[0]] + s[1..] == front + s
  {
  }

  lemma Next(t: Tracked, c: char) returns (next: Tracked)
    requires Agrees(t.m, t.r)
    ensures next == Tracked(Consume(t.m, c), Note(t.r, t.m, c))
    ensures Agrees(next.m, next.r) && Joined(next.r) == Joined(t.r) + [c]
  {
    StepAgrees(t.m, t.r, c);
    next := Tracked(Consume(t.m, c), Note(t.r, t.m, c));
  }

  function PartsOf(r: Record): Parts {
    Parts(OrEmpty(r.ns), OrEmpty(r.group), r.instantiation, r.port, r.credentials)
  }

  function RecordOf(p: Parts): Record {
    Record("ham", Some(p.ns), Some(p.group), p.instantiation, p.port, p.credentials)
  }

  lemma JoinedIsPrint(p: Parts)
    ensures Joined(RecordOf(p)) == Print(p)
  {
    assert "ham" + ([':'] + p.ns) == "ham:" + p.ns;
    assert "ham:" + p.ns + ([':'] + p.group) == "ham:" + p.ns + ":" + p.group;
  }

  lemma AgreedIsWellFormed(m: Machine, r: Record)
    requires Agrees(m, r) && Complete(m)
    ensures WellFormed(PartsOf(r)) && RecordOf(PartsOf(r)) == r && Shows(m, PartsOf(r))
  {
  }

  /** Every accepted string is the print of well-formed parts, the ones the parser holds. */
  lemma AcceptedIsPrinted(s: string) returns (p: Parts)
    requires Complete(Scan(s))
    ensures WellFormed(p) && Print(p) == s && Shows(Scan(s), p)
  {
    TrackAgrees(TRACKED_START, s);
    var t := Track(TRACKED_START, s);
    assert t.m == Scan(s);
    AgreedIsWellFormed(t.m, t.r);
    p := PartsOf(t.r);
    JoinedIsPrint(p);
    assert Joined(TRACKED_START.r) + s == s;
  }

  // ---- every well-formed tuple is parsed back

  lemma {:induction false} TrackConcat(t: Tracked, a: string, b: string)
    ensures Track(t, a + b) == Track(Track(t, a), b)
    decreases |a|
  {
    if a == [] {
      assert a + b == b;
    } else {
      assert (a + b)[1..] == a[1..] + b;
      TrackConcat(Tracked(Consume(t.m, a[0]), Note(t.r, t.m, a[0])), a[1..], b);
    }
  }

  lemma {:induction false} TrackNamespace(t: Tracked, s: string)
    requires t.m.phase == InNamespace && t.r.ns.Some? && ':' !in s
    ensures Track(t, s) == Tracked(t.m.(ns := t.m.ns + s), t.r.(ns := Some(t.r.ns.value + s)))
    decreases |s|
  {
    if s != [] {
      TrackNamespace(Tracked(Consume(t.m, s[0]), Note(t.r, t.m, s[0])), s[1..]);
      assert t.m.ns + s == t.m.ns + [s[0]] + s[1..];
      assert t.r.ns.value + s == t.r.ns.value + [s[0]] + s[1..];
    } else {
      assert t.m.ns + s == t.m.ns && t.r.ns.value + s == t.r.ns.value;
    }
  }

  function Waiting(wait: bool): Brackets { if wait then Inside else Outside }

  lemma {:induction false} BrokenStays(s: string, delimiters: set<char>)
    ensures BracketScan(Broken, s, delimiters) == Broken
    decreases |s|
  {
    if s != [] {
      BrokenStays(s[1..], delimiters);
    }
  }

  lemma {:induction false} TrackGroup(t: Tracked, s: string)
    requires t.m.phase == InGroup && t.r.group.Some?
    requires BracketScan(Waiting(t.m.waitForBracket), s, {'@', ':', '/'}) == Outside
    ensures Track(t, s) == Tracked(t.m.(group := t.m.group + s, waitForBracket := false), t.r.(group := Some(t.r.group.value + s)))
    decreases |s|
  {
    if s != [] {
      BrokenStays(s[1..], {'@', ':', '/'});
      TrackGroup(Tracked(Consume(t.m, s[0]), Note(t.r, t.m, s[0])), s[1..]);
      assert t.m.group + s == t.m.group + [s[0]] + s[1..];
      assert t.r.group.value + s == t.r.group.value + [s[0]] + s[1..];
    } else {
      assert t.m.group + s == t.m.group && t.r.group.value + s == t.r.group.value;
    }
  }

  lemma {:induction false} TrackInstantiation(t: Tracked, s: string)
    requires t.m.phase == InInstantiation && t.r.instantiation.Some?
    requires BracketScan(Waiting(t.m.waitForBracket), s, {':', '/'}) == Outside
    ensures Track(t, s) == Tracked(t.m.(instantiation := t.m.instantiation + s, waitForBracket := false),
                                   t.r.(instantiation := Some(t.r.instantiation.value + s)))
    decreases |s|
  {
    if s != [] {
      BrokenStays(s[1..], {':', '/'});
      TrackInstantiation(Tracked(Consume(t.m, s[0]), Note(t.r, t.m, s[0])), s[1..]);
      assert t.m.instantiation + s == t.m.instantiation + [s[0]] + s[1..];
      assert t.r.instantiation.value + s == t.r.instantiation.value + [s[0]] + s[1..];
    } else {
      assert t.m.instantiation + s == t.m.instantiation && t.r.instantiation.value + s == t.r.instantiation.value;
    }
  }

  lemma {:induction false} TrackPort(t: Tracked, s: string)
    requires t.m.phase == InPort && t.r.port.Some? && '/' !in s
    ensures Track(t, s) == Tracked(t.m.(port := t.m.port + s), t.r.(port := Some(t.r.port.value + s)))
    decreases |s|
  {
    if s != [] {
      TrackPort(Tracked(Consume(t.m, s[0]), Note(t.r, t.m, s[0])), s[1..]);
      assert t.m.port + s == t.m.port + [s[0]] + s[1..];
      assert t.r.port.value + s == t.r.port.value + [s[0]] + s[1..];
    } else {
      assert t.m.port + s == t.m.port && t.r.port.value + s == t.r.port.value;
    }
  }

  lemma {:induction false} TrackCredentials(t: Tracked, s: string)
    requires t.m.phase == InCredentials && t.r.credentials.Some?
    ensures Track(t, s) == Tracked(t.m.(credentials := t.m.credentials + s), t.r.(credentials := Some(t.r.credentials.value + s)))
    decreases |s|
  {
    if s != [] {
      TrackCredentials(Tracked(Consume(t.m, s[0]), Note(t.r, t.m, s[0])), s[1..]);
      assert t.m.credentials + s == t.m.credentials + [s[0]] + s[1..];
      assert t.r.credentials.value + s == t.r.credentials.value + [s[0]] + s[1..];
    } else {
      assert t.m.credentials + s == t.m.credentials && t.r.credentials.value + s == t.r.credentials.value;
    }
  }

  lemma TrackOne(t: Tracked, c: char)
    ensures Track(t, [c]) == Tracked(Consume(t.m, c), Note(t.r, t.m, c))
  {
    assert [c][1..] == [];
  }

  lemma TrackScheme()
    ensures Track(TRACKED_START, "ham:") == Tracked(START.(scheme := "ham", phase := InNamespace), Record("ham", Some(""), None, None, None, None))
  {
    assert "ham:"[1..] == "am:" && "am:"[1..] == "m:" && "m:"[1..] == ":" && ":"[1..] == "";
    assert "" + "h" == "h" && "h" + "a" == "ha" && "ha" + "m" == "ham";
    var t1 := Tracked(START.(scheme := "h"), Record("h", None, None, None, None, None));
    var t2 := Tracked(START.(scheme := "ha"), Record("ha", None, None, None, None, None));
    var t3 := Tracked(START.(scheme := "ham"), Record("ham", None, None, None, None, None));
    assert Track(t3, ":") == Tracked(START.(scheme := "ham", phase := InNamespace), Record("ham", Some(""), None, None, None, None));
    assert Track(t2, "m:") == Track(t3, ":");
    assert Track(t1, "am:") == Track(t2, "m:");
  }

  lemma TrackOpenThen(t: Tracked, delimiter: char, s: string)
    ensures Track(t, [delimiter] + s) == Track(Tracked(Consume(t.m, delimiter), Note(t.r, t.m, delimiter)), s)
  {
    assert ([delimiter] + s)[1..] == s;
  }

  lemma TrackOptionalInstantiation(t: Tracked, o: Option<string>)
    requires t.m.phase == InGroup && !t.m.waitForBracket && t.m.instantiation == "" && t.r.instantiation == None
    requires o.Some? ==> Balanced(o.value, {':', '/'})
    ensures Track(t, Optional('@', o)) ==
            Tracked(t.m.(phase := if o.Some? then InInstantiation else InGroup, instantiation := OrEmpty(o)), t.r.(instantiation := o))
  {
    if o.Some? {
      TrackOpenThen(t, '@', o.value);
      TrackInstantiation(Tracked(Consume(t.m, '@'), Note(t.r, t.m, '@')), o.value);
      assert "" + o.value == o.value;
    }
  }

  lemma TrackOptionalPort(t: Tracked, o: Option<string>)
    requires t.m.phase in {InGroup, InInstantiation} && !t.m.waitForBracket && t.m.port == "" && t.r.port == None
    requires o.Some? ==> '/' !in o.value
    ensures Track(t, Optional(':', o)) ==
            Tracked(t.m.(phase := if o.Some? then InPort else t.m.phase, port := OrEmpty(o)), t.r.(port := o))
  {
    if o.Some? {
      TrackOpenThen(t, ':', o.value);
      TrackPort(Tracked(Consume(t.m, ':'), Note(t.r, t.m, ':')), o.value);
      assert "" + o.value == o.value;
    }
  }

  lemma TrackOptionalCredentials(t: Tracked, o: Option<string>)
    requires t.m.phase in {InGroup, InInstantiation, InPort} && !t.m.waitForBracket && t.m.credentials == "" && t.r.credentials == None
    ensures Track(t, Optional('/', o)) ==
            Tracked(t.m.(phase := if o.Some? then InCredentials else t.m.phase, credentials := OrEmpty(o)), t.r.(credentials := o))
  {
    if o.Some? {
      TrackOpenThen(t, '/', o.value);
      TrackCredentials(Tracked(Consume(t.m, '/'), Note(t.r, t.m, '/')), o.value);
      assert "" + o.value == o.value;
    }
  }

  lemma TrackToGroup(p: Parts)
    requires WellFormed(p)
    ensures Track(TRACKED_START, "ham:" + p.ns + ":" + p.group) ==
            Tracked(Machine(InGroup, false, "ham", p.ns, p.group, "", "", ""), Record("ham", Some(p.ns), Some(p.group), None, None, None))
  {
    TrackScheme();
    TrackConcat(TRACKED_START, "ham:", p.ns);
    TrackNamespace(Track(TRACKED_START, "ham:"), p.ns);
    assert "" + p.ns == p.ns && "" + p.group == p.group;
    TrackConcat(TRACKED_START, "ham:" + p.ns, ":");
    TrackOne(Track(TRACKED_START, "ham:" + p.ns), ':');
    TrackConcat(TRACKED_START, "ham:" + p.ns + ":", p.group);
    TrackGroup(Track(TRACKED_START, "ham:" + p.ns + ":"), p.group);
  }

  /** Every well-formed tuple prints to a string that is accepted and parses back to it. */
  lemma PrintedIsParsed(p: Parts)
    requires WellFormed(p)
    ensures Complete(Scan(Print(p))) && Shows(Scan(Print(p)), p)
    ensures Track(TRACKED_START, Print(p)).r == RecordOf(p)
  {
    TrackAgrees(TRACKED_START, Print(p));
    TrackToGroup(p);
    var front := "ham:" + p.ns + ":" + p.group;
    var t := Track(TRACKED_START, front);
    TrackOptionalInstantiation(t, p.instantiation);
    TrackConcat(TRACKED_START, front, Optional('@', p.instantiation));
    var u := Track(t, Optional('@', p.instantiation));
    TrackOptionalPort(u, p.port);
    TrackConcat(TRACKED_START, front + Optional('@', p.instantiation), Optional(':', p.port));
    TrackOptionalCredentials(Track(u, Optional(':', p.port)), p.credentials);
    TrackConcat(TRACKED_START, front + Optional('@', p.instantiation) + Optional(':', p.port), Optional('/', p.credentials));
  }

  /** Printing is injective: no string reads as two different well-formed tuples. */
  lemma PrintIsInjective(p: Parts, q: Parts)
    requires WellFormed(p) && WellFormed(q) && Print(p) == Print(q)
    ensures p == q
  {
    PrintedIsParsed(p);
    PrintedIsParsed(q);
  }

  /** Parse and print are inverse: a lower-case string is accepted if and only if it is the
      print of a well-formed tuple, which is unique and is what the parser then holds. */
  lemma ParseInvertsPrint(s: string)
    ensures Complete(Scan(s)) <==> exists p :: WellFormed(p) && Print(p) == s
    ensures forall p :: WellFormed(p) && Print(p) == s ==> Shows(Scan(s), p)
  {
    if Complete(Scan(s)) {
      var p := AcceptedIsPrinted(s);
    }
    forall p | WellFormed(p) && Print(p) == s ensures Complete(Scan(s)) && Shows(Scan(s), p) {
      PrintedIsParsed(p);
    }
  }

  lemma LowerTwice(s: string)
    ensures LowerAll(LowerAll(s)) == LowerAll(s)
  {
  }

  /** Parsing the string of a parsed URI changes nothing. */
  lemma ReparseIsIdentity(s: string)
    ensures FromString(FromString(s).str) == FromString(s)
  {
    LowerTwice(s);
    if !Complete(Scan(LowerAll(s))) {
      assert LowerAll("") == "";
      assert Scan("") == START;
    }
  }

  /** Lower case moves 'A' to 'Z' by 32 and leaves every other character alone. */
  lemma LowerCases(s: string, i: nat)
    requires i < |s|
    ensures 65 <= s[i] as int <= 90 ==> LowerAll(s)[i] as int == s[i] as int + 32
    ensures !(65 <= s[i] as int <= 90) ==> LowerAll(s)[i] == s[i]
  {
    assert 'A' as int == 65 && 'Z' as int == 90 && 'a' as int == 97;
  }

  /** What the object offers of a component: without the brackets if it is in brackets, which is
      judged by the first character, and otherwise the component itself. */
  ghost predicate Offers(component: string, offered: string) {
    && (forall h :: component == "[" + h + "]" ==> offered == h)
    && (component != "" && component[0] == '[' ==> |component| >= 2 && offered == component[1..|component| - 1])
    && (component == "" || component[0] != '[' ==> offered == component)
  }

  lemma OpenIsUnbalanced(delimiters: set<char>)
    ensures !Balanced(['['], delimiters)
  {
    assert ['['][1..] == [];
  }

  lemma OffersUnbracketed(s: string, delimiters: set<char>)
    requires Balanced(s, delimiters)
    ensures Offers(s, Unbracketed(s))
  {
    forall h | s == "[" + h + "]" ensures Unbracketed(s) == h {
      assert s[0] == '[';
    }
    OpenIsUnbalanced(delimiters);
    assert |s| == 1 && s[0] == '[' ==> s == ['['];
  }

  /** Every string that prints a well-formed tuple, in any case, gives exactly its components. */
  lemma ComponentsOfUri(s: string, p: Parts)
    requires WellFormed(p) && LowerAll(s) == Print(p)
    ensures FromString(s).str == "ham:" + p.ns + ":" + p.group + Optional('@', p.instantiation)
                                 + Optional(':', p.port) + Optional('/', p.credentials)
    ensures FromString(s).ns == p.ns
    ensures Offers(p.group, FromString(s).group)
    ensures Offers(OrEmpty(p.instantiation), FromString(s).instantiation)
    ensures FromString(s).port == OrEmpty(p.port)
    ensures FromString(s).credentials == OrEmpty(p.credentials)
  {
    PrintedIsParsed(p);
    OffersUnbracketed(p.group, {'@', ':', '/'});
    OffersUnbracketed(OrEmpty(p.instantiation), {':', '/'});
  }

  /** Every other string, and no URI, gives the empty object. */
  lemma OtherStringsAreNoUri(s: string)
    ensures FromString(s) == EMPTY_URI <==> !exists p :: WellFormed(p) && Print(p) == LowerAll(s)
  {
    ParseInvertsPrint(LowerAll(s));
    if Complete(Scan(LowerAll(s))) {
      assert FromString(s).ns != EMPTY_URI.ns;
    }
  }

  // ---- the parser and the cache, updated in place

  lemma {:induction false} FeedAppend(m: Machine, s: string, c: char)
    ensures Feed(m, s + [c]) == Consume(Feed(m, s), c)
    decreases |s|
  {
    if s == [] {
      assert (s + [c])[1..] == [];
    } else {
      assert (s + [c])[1..] == s[1..] + [c];
      FeedAppend(Consume(m, s[0]), s[1..], c);
    }
  }

  class UriPrivate {
    var phase: Phase
    var waitForBracket: bool
    var scheme: string
    var ns: string
    var group: string
    var instantiation: string
    var port: string
    var credentials: string
    var uri: string

    ghost function View(): Machine
      reads this
    {
      Machine(phase, waitForBracket, scheme, ns, group, instantiation, port, credentials)
    }

    constructor ()
      ensures View() == START && uri == ""
    {
      phase, waitForBracket := InScheme, false;
      scheme, ns, group, instantiation, port, credentials, uri := "", "", "", "", "", "", "";
    }

    method ConsumeChar(c: char)
      modifies this
      ensures View() == Consume(old(View()), c) && uri == old(uri)
    {
      match phase
      case InScheme =>
        if c == ':' { phase := InNamespace; } else { scheme := scheme + [c]; }
      case InNamespace =>
        if c == ':' { phase := InGroup; } else { ns := ns + [c]; }
      case InGroup =>
        if !waitForBracket {
          if c == '@' { phase := InInstantiation; return; }
          else if c == ':' { phase := InPort; return; }
          else if c == '/' { phase := InCredentials; return; }
          else if c == '[' { waitForBracket := true; }
        }
        if c == ']' { waitForBracket := false; }
        group := group + [c];
      case InInstantiation =>
        if !waitForBracket {
          if c == ':' { phase := InPort; return; }
          else if c == '/' { phase := InCredentials; return; }
          else if c == '[' { waitForBracket := true; }
        }
        if c == ']' { waitForBracket := false; }
        instantiation := instantiation + [c];
      case InPort =>
        if c == '/' { phase := InCredentials; } else { port := port + [c]; }
      case InCredentials =>
        credentials := credentials + [c];
    }

    /** Parses a string from the start; the components are cleared if it is no URI. */
    method Parse(what: string) returns (ok: bool)
      requires uri == ""
      modifies this
      ensures uri == LowerAll(what)
      ensures ok == Complete(Scan(LowerAll(what)))
      ensures ok ==> FromString(what) == Uri(uri, ns, group, instantiation, port, credentials)
      ensures !ok ==> scheme == ns == group == instantiation == port == credentials == ""
    {
      phase, waitForBracket := InScheme, false;
      scheme, ns, group, instantiation, port, credentials := "", "", "", "", "", "";
      var lower := LowerAll(what);
      for i := 0 to |what|
        invariant uri == lower[..i]
        invariant View() == Scan(lower[..i])
      {
        var c := Lower(what[i]);
        uri := uri + [c];
        FeedAppend(START, lower[..i], c);
        assert lower[..i + 1] == lower[..i] + [c];
        ConsumeChar(c);
      }
      assert lower[..|what|] == lower;
      if scheme == "ham" && ns != "" && group != "" && !waitForBracket {
        if |group| >= 2 && group[0] == '[' { group := group[1..|group| - 1]; }
        if |instantiation| >= 2 && instantiation[0] == '[' { instantiation := instantiation[1..|instantiation| - 1]; }
        return true;
      }
      scheme, ns, group, instantiation, port, credentials := "", "", "", "", "", "";
      return false;
    }
  }

  const MAX_CACHE_SIZE: nat := 50

  class UriCache {
    var cache: map<string, Uri>

    /** The cache is bounded, and every entry is what parsing its key would give. */
    ghost predicate Valid()
      reads this
    {
      |cache| <= MAX_CACHE_SIZE && forall k :: k in cache ==> cache[k] == FromString(k)
    }

    constructor ()
      ensures Valid() && cache == map[]
    {
      cache := map[];
    }

    /** A cached lookup always agrees with direct parsing. */
    method Lookup(s: string) returns (u: Uri)
      requires Valid()
      modifies this
      ensures Valid()
      ensures u == FromString(s) && s in cache
      ensures s in old(cache) ==> cache == old(cache)
      ensures s !in old(cache) ==> cache == (if |old(cache)| < 50 then old(cache) else map[])[s := u]
    {
      if s in cache {
        u := cache[s];
      } else {
        u := FromString(s);
        if |cache| >= MAX_CACHE_SIZE {
          cache := map[];
        }
        cache := cache[s := u];
      }
    }
  }
}
