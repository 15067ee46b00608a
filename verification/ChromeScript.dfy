/** Chrome driven by script: the text its poll script prints, the parser that
    reads it back, and the events a subscriber derives from polls. */
module ChromeScript {
  import opened BrowserTypes
  import opened Decimals

  const RS := 30 as char
  const US := 31 as char

  // --- splitting text ------------------------------------------------------------

  /** The pieces of `s` between separators. */
  function Split(s: string, sep: char): (parts: seq<string>)
    ensures parts != []
  {
    if s == "" then [""]
    else
      var before, c := Split(s[..|s| - 1], sep), s[|s| - 1];
      if c == sep then before + [""] else before[|before| - 1 := before[|before| - 1] + [c]]
  }

  function Join(parts: seq<string>, sep: char): string {
    if parts == [] then ""
    else if |parts| == 1 then parts[0]
    else Join(parts[..|parts| - 1], sep) + [sep] + parts[|parts| - 1]
  }

  lemma LastPiece(a: seq<string>, b: seq<string>, c: char)
    requires b != []
    ensures var n := |a + b| - 1; (a + b)[n := (a + b)[n] + [c]] == a + b[|b| - 1 := b[|b| - 1] + [c]]
    ensures (a + b) + [""] == a + (b + [""])
  {
  }

  lemma {:induction false} SplitAppend(a: string, b: string, sep: char)
    ensures Split(a + [sep] + b, sep) == Split(a, sep) + Split(b, sep)
  {
    var s := a + [sep] + b;
    if b == "" {
      assert s[..|s| - 1] == a;
    } else {
      var init, c := b[..|b| - 1], b[|b| - 1];
      SplitAppend(a, init, sep);
      assert s[..|s| - 1] == a + [sep] + init;
      LastPiece(Split(a, sep), Split(init, sep), c);
    }
  }

  lemma {:induction false} SplitWhole(s: string, sep: char)
    requires sep !in s
    ensures Split(s, sep) == [s]
  {
    if s != "" {
      SplitWhole(s[..|s| - 1], sep);
      assert s == s[..|s| - 1] + [s[|s| - 1]];
    }
  }

  lemma JoinOneMore(parts: seq<string>, sep: char)
    requires parts != []
    ensures Join(parts + [""], sep) == Join(parts, sep) + [sep]
  {
    assert (parts + [""])[..|parts|] == parts;
  }

  lemma JoinLonger(parts: seq<string>, c: char, sep: char)
    requires parts != []
    ensures Join(parts[|parts| - 1 := parts[|parts| - 1] + [c]], sep) == Join(parts, sep) + [c]
  {
    var n := |parts| - 1;
    assert parts[n := parts[n] + [c]][..n] == parts[..n];
  }

  lemma {:induction false} JoinSplit(s: string, sep: char)
    ensures Join(Split(s, sep), sep) == s
  {
    if s != "" {
      var init, c := s[..|s| - 1], s[|s| - 1];
      JoinSplit(init, sep);
      JoinOneMore(Split(init, sep), sep);
      JoinLonger(Split(init, sep), c, sep);
      assert s == init + [c];
    }
  }

  // --- what the browser shows and what the script prints ---------------------------

  datatype ShownTab = ShownTab(id: string, url: string, title: string)

  /** `index`: position in the window stack, the front window being 1.
      `active`: position of its active tab, from 1. */
  datatype ShownWindow = ShownWindow(id: string, index: nat, active: nat, tabs: seq<ShownTab>)

  datatype Chrome = Chrome(frontmost: bool, windows: seq<ShownWindow>)

  function PrintTab(t: ShownTab): string {
    "t" + [US] + t.id + [US] + t.url + [US] + t.title
  }

  function PrintTabs(tabs: seq<ShownTab>): string {
    if tabs == [] then "" else PrintTabs(tabs[..|tabs| - 1]) + [RS] + PrintTab(tabs[|tabs| - 1])
  }

  function PrintWindow(w: ShownWindow): string {
    "w" + [US] + w.id + [US] + Decimal(w.index) + [US] + Decimal(w.active)
  }

  function PrintHead(frontmost: bool): string {
    "up" + [US] + if frontmost then "true" else "false"
  }

  function PrintWindows(windows: seq<ShownWindow>): string {
    if windows == [] then ""
    else
      var w := windows[|windows| - 1];
      PrintWindows(windows[..|windows| - 1]) + [RS] + PrintWindow(w) + PrintTabs(w.tabs)
  }

  function Print(c: Chrome): string {
    PrintHead(c.frontmost) + PrintWindows(c.windows)
  }

  // --- reading it back ---------------------------------------------------------------

  datatype ReadTab = ReadTab(id: string, url: string, title: string, active: bool)

  datatype ReadWindow = ReadWindow(id: string, focused: bool, tabs: seq<ReadTab>)

  datatype Snapshot = Snapshot(running: bool, frontmost: bool, windows: seq<ReadWindow>)

  /** The windows read so far and the active tab's position in the last one. */
  datatype Reading = Reading(windows: seq<ReadWindow>, active: int)

  const NOT_RUNNING := Snapshot(false, false, [])

  function ReadRecord(r: Reading, frontmost: bool, rec: string): Option<Reading> {
    var f := Split(rec, US);
    if f[0] == "w" && |f| == 4 then
      var index, active := Atoi(f[2]), Atoi(f[3]);
      if index.None? || active.None? then None
      else Some(Reading(r.windows + [ReadWindow(f[1], frontmost && index.value == 1, [])], active.value))
    else if f[0] == "t" && |f| >= 4 && r.windows != [] then
      var n := |r.windows| - 1;
      var w := r.windows[n];
      var t := ReadTab(f[1], f[2], Join(f[3..], US), |w.tabs| + 1 == r.active);
      Some(r.(windows := r.windows[n := w.(tabs := w.tabs + [t])]))
    else None
  }

  function ReadRecords(frontmost: bool, records: seq<string>): Option<Reading> {
    if records == [] then Some(Reading([], 0))
    else
      var r := ReadRecords(frontmost, records[..|records| - 1]);
      if r.None? then None else ReadRecord(r.value, frontmost, records[|records| - 1])
  }

  /** The snapshot a text describes, if it describes one. */
  function Described(out: string): Option<Snapshot> {
    if out == "down" then Some(NOT_RUNNING)
    else
      var records := Split(out, RS);
      var head := Split(records[0], US);
      if |head| != 2 || head[0] != "up" then None
      else
        var r := ReadRecords(head[1] == "true", records[1..]);
        if r.None? then None else Some(Snapshot(true, head[1] == "true", r.value.windows))
  }

  lemma {:induction false} FailureStays(frontmost: bool, records: seq<string>, n: nat)
    requires n <= |records| && ReadRecords(frontmost, records[..n]).None?
    ensures ReadRecords(frontmost, records).None?
  {
    if n < |records| {
      assert records[..|records| - 1][..n] == records[..n];
      FailureStays(frontmost, records[..|records| - 1], n);
    } else {
      assert records[..n] == records;
    }
  }

  lemma OneMoreRecord(frontmost: bool, records: seq<string>, n: nat, r: Reading)
    requires n < |records| && ReadRecords(frontmost, records[..n]) == Some(r)
    ensures ReadRecords(frontmost, records[..n + 1]) == ReadRecord(r, frontmost, records[n])
    ensures ReadRecord(r, frontmost, records[n]).None? ==> ReadRecords(frontmost, records).None?
  {
    assert records[..n + 1][..n] == records[..n];
    if ReadRecord(r, frontmost, records[n]).None? {
      FailureStays(frontmost, records, n + 1);
    }
  }

  method ParseSnapshot(out: string) returns (s: Option<Snapshot>)
    ensures s == Described(out)
  {
    if out == "down" {
      return Some(NOT_RUNNING);
    }
    var records := Split(out, RS);
    var head := Split(records[0], US);
    if |head| != 2 || head[0] != "up" {
      return None;
    }
    var frontmost := head[1] == "true";
    var rest := records[1..];
    var windows: seq<ReadWindow>, active := [], 0;
    for n := 0 to |rest|
      invariant ReadRecords(frontmost, rest[..n]) == Some(Reading(windows, active))
    {
      OneMoreRecord(frontmost, rest, n, Reading(windows, active));
      var f := Split(rest[n], US);
      if f[0] == "w" && |f| == 4 {
        var index := Atoi(f[2]);
        if index.None? {
          return None;
        }
        var position := Atoi(f[3]);
        if position.None? {
          return None;
        }
        active := position.value;
        windows := windows + [ReadWindow(f[1], frontmost && index.value == 1, [])];
      } else if f[0] == "t" && |f| >= 4 && |windows| > 0 {
        var w := windows[|windows| - 1];
        var t := ReadTab(f[1], f[2], Join(f[3..], US), |w.tabs| + 1 == active);
        windows := windows[|windows| - 1 := w.(tabs := w.tabs + [t])];
      } else {
        return None;
      }
    }
    assert rest[..|rest|] == rest;
    s := Some(Snapshot(true, frontmost, windows));
  }

  // --- the round trip -----------------------------------------------------------------

  function SeenTabs(tabs: seq<ShownTab>, active: nat): seq<ReadTab> {
    seq(|tabs|, i requires 0 <= i < |tabs| => ReadTab(tabs[i].id, tabs[i].url, tabs[i].title, i + 1 == active))
  }

  function SeenWindow(w: ShownWindow, frontmost: bool): ReadWindow {
    ReadWindow(w.id, frontmost && w.index == 1, SeenTabs(w.tabs, w.active))
  }

  function SeenWindows(windows: seq<ShownWindow>, frontmost: bool): seq<ReadWindow> {
    if windows == [] then []
    else SeenWindows(windows[..|windows| - 1], frontmost) + [SeenWindow(windows[|windows| - 1], frontmost)]
  }

  /** The snapshot of what the browser shows. */
  function Seen(c: Chrome): Snapshot {
    Snapshot(true, c.frontmost, SeenWindows(c.windows, c.frontmost))
  }

  /** What is seen: every window with its tabs in order, focused when it is the
      front window of a browser in front, and its active tab by position. */
  lemma {:induction false} SeenIs(windows: seq<ShownWindow>, frontmost: bool, i: nat)
    requires i < |windows|
    ensures |SeenWindows(windows, frontmost)| == |windows|
    ensures var w, r := windows[i], SeenWindows(windows, frontmost)[i];
            && r.id == w.id && (r.focused <==> frontmost && w.index == 1) && |r.tabs| == |w.tabs|
            && forall j :: 0 <= j < |w.tabs| ==>
                 r.tabs[j] == ReadTab(w.tabs[j].id, w.tabs[j].url, w.tabs[j].title, w.active == j + 1)
  {
    var n := |windows| - 1;
    if i < n {
      SeenIs(windows[..n], frontmost, i);
    } else if n > 0 {
      SeenIs(windows[..n], frontmost, 0);
    }
  }

  predicate Clean(s: string) {
    RS !in s && US !in s
  }

  /** No field holds the record separator, no id or URL the unit separator. */
  predicate PrintableTab(t: ShownTab) {
    Clean(t.id) && Clean(t.url) && RS !in t.title
  }

  predicate PrintableWindow(w: ShownWindow) {
    && Clean(w.id) && w.index <= MAX_INT && w.active <= MAX_INT
    && forall i :: 0 <= i < |w.tabs| ==> PrintableTab(w.tabs[i])
  }

  predicate Printable(c: Chrome) {
    forall i :: 0 <= i < |c.windows| ==> PrintableWindow(c.windows[i])
  }

  lemma DigitsAreClean(n: nat)
    ensures Clean(Decimal(n))
  {
    DecimalRoundTrip(n);
  }

  lemma TabFields(t: ShownTab)
    requires PrintableTab(t)
    ensures Split(PrintTab(t), US) == ["t", t.id, t.url] + Split(t.title, US)
    ensures RS !in PrintTab(t)
  {
    SplitWhole("t", US);
    SplitWhole(t.id, US);
    SplitWhole(t.url, US);
    SplitAppend("t", t.id, US);
    SplitAppend("t" + [US] + t.id, t.url, US);
    SplitAppend("t" + [US] + t.id + [US] + t.url, t.title, US);
  }

  lemma WindowFields(w: ShownWindow)
    requires PrintableWindow(w)
    ensures Split(PrintWindow(w), US) == ["w", w.id, Decimal(w.index), Decimal(w.active)]
    ensures RS !in PrintWindow(w)
  {
    DigitsAreClean(w.index);
    DigitsAreClean(w.active);
    SplitWhole("w", US);
    SplitWhole(w.id, US);
    SplitWhole(Decimal(w.index), US);
    SplitWhole(Decimal(w.active), US);
    SplitAppend("w", w.id, US);
    SplitAppend("w" + [US] + w.id, Decimal(w.index), US);
    SplitAppend("w" + [US] + w.id + [US] + Decimal(w.index), Decimal(w.active), US);
  }

  /** Appending a printed record appends it to the records. */
  lemma RecordAppended(out: string, rec: string)
    requires RS !in rec
    ensures Split(out + [RS] + rec, RS) == Split(out, RS) + [rec]
  {
    SplitAppend(out, rec, RS);
    SplitWhole(rec, RS);
  }

  /** The reading after the text printed so far. */
  ghost predicate Reads(out: string, frontmost: bool, r: Reading) {
    var records := Split(out, RS);
    records[0] == PrintHead(frontmost) && ReadRecords(frontmost, records[1..]) == Some(r)
  }

  lemma ReadOn(out: string, frontmost: bool, r: Reading, rec: string, r': Reading)
    requires Reads(out, frontmost, r) && RS !in rec && ReadRecord(r, frontmost, rec) == Some(r')
    ensures Reads(out + [RS] + rec, frontmost, r')
  {
    RecordAppended(out, rec);
    var records := Split(out, RS);
    assert (records + [rec])[1..] == records[1..] + [rec];
    assert (records[1..] + [rec])[..|records[1..]|] == records[1..];
  }

  /** The window after its first `n` tabs were read. */
  function Partly(w: ShownWindow, n: nat, frontmost: bool): ReadWindow
    requires n <= |w.tabs|
  {
    SeenWindow(w.(tabs := w.tabs[..n]), frontmost)
  }

  lemma {:induction false} TabsReadBack(out: string, frontmost: bool, windows: seq<ReadWindow>, w: ShownWindow, n: nat)
    requires PrintableWindow(w) && n <= |w.tabs|
    requires Reads(out, frontmost, Reading(windows + [Partly(w, 0, frontmost)], w.active))
    ensures Reads(out + PrintTabs(w.tabs[..n]), frontmost, Reading(windows + [Partly(w, n, frontmost)], w.active))
  {
    if n == 0 {
      assert out + "" == out;
    } else {
      TabsReadBack(out, frontmost, windows, w, n - 1);
      NextTab(windows, w, n - 1, frontmost);
      ReadOn(out + PrintTabs(w.tabs[..n - 1]), frontmost, Reading(windows + [Partly(w, n - 1, frontmost)], w.active),
             PrintTab(w.tabs[n - 1]), Reading(windows + [Partly(w, n, frontmost)], w.active));
      TabPrinted(out, w.tabs, n - 1);
    }
  }

  lemma TabPrinted(out: string, tabs: seq<ShownTab>, n: nat)
    requires n < |tabs|
    ensures out + PrintTabs(tabs[..n + 1]) == out + PrintTabs(tabs[..n]) + [RS] + PrintTab(tabs[n])
  {
    assert tabs[..n + 1][..n] == tabs[..n];
  }

  lemma NextTab(windows: seq<ReadWindow>, w: ShownWindow, n: nat, frontmost: bool)
    requires PrintableWindow(w) && n < |w.tabs|
    ensures RS !in PrintTab(w.tabs[n])
    ensures ReadRecord(Reading(windows + [Partly(w, n, frontmost)], w.active), frontmost, PrintTab(w.tabs[n])) ==
            Some(Reading(windows + [Partly(w, n + 1, frontmost)], w.active))
  {
    var t := w.tabs[n];
    var before, after := Partly(w, n, frontmost), Partly(w, n + 1, frontmost);
    OneTab(windows, before, t, w.active, frontmost);
    assert after.tabs == before.tabs + [ReadTab(t.id, t.url, t.title, n + 1 == w.active)];
  }

  lemma OneTab(windows: seq<ReadWindow>, w: ReadWindow, t: ShownTab, active: nat, frontmost: bool)
    requires PrintableTab(t)
    ensures RS !in PrintTab(t)
    ensures ReadRecord(Reading(windows + [w], active), frontmost, PrintTab(t)) ==
            Some(Reading(windows + [w.(tabs := w.tabs + [ReadTab(t.id, t.url, t.title, |w.tabs| + 1 == active)])],
                         active))
  {
    TabFields(t);
    JoinSplit(t.title, US);
    var f := Split(PrintTab(t), US);
    assert f[3..] == Split(t.title, US);
    LastReplaced(windows, w, w.(tabs := w.tabs + [ReadTab(t.id, t.url, t.title, |w.tabs| + 1 == active)]));
  }

  lemma LastReplaced(windows: seq<ReadWindow>, w: ReadWindow, v: ReadWindow)
    ensures (windows + [w])[|windows| := v] == windows + [v]
  {
  }

  lemma OneWindow(r: Reading, w: ShownWindow, frontmost: bool)
    requires PrintableWindow(w)
    ensures RS !in PrintWindow(w)
    ensures ReadRecord(r, frontmost, PrintWindow(w)) == Some(Reading(r.windows + [Partly(w, 0, frontmost)], w.active))
  {
    WindowFields(w);
    AtoiOfDecimal(w.index);
    AtoiOfDecimal(w.active);
    assert Partly(w, 0, frontmost).tabs == [];
  }

  lemma {:induction false} WindowsReadBack(frontmost: bool, windows: seq<ShownWindow>) returns (active: int)
    requires forall i :: 0 <= i < |windows| ==> PrintableWindow(windows[i])
    ensures Reads(PrintHead(frontmost) + PrintWindows(windows), frontmost,
                  Reading(SeenWindows(windows, frontmost), active))
  {
    var out := PrintHead(frontmost);
    if windows == [] {
      SplitWhole(out, RS);
      assert out + "" == out;
      active := 0;
    } else {
      var init, w := windows[..|windows| - 1], windows[|windows| - 1];
      var before := WindowsReadBack(frontmost, init);
      WindowReadBack(out + PrintWindows(init), frontmost, SeenWindows(init, frontmost), before, w);
      Regrouped(out, PrintWindows(init), [RS], PrintWindow(w), PrintTabs(w.tabs));
      active := w.active;
    }
  }

  lemma Regrouped(a: string, b: string, c: string, d: string, e: string)
    ensures a + b + c + d + e == a + (b + c + d + e)
  {
  }

  lemma WindowReadBack(out: string, frontmost: bool, windows: seq<ReadWindow>, active: int, w: ShownWindow)
    requires PrintableWindow(w) && Reads(out, frontmost, Reading(windows, active))
    ensures Reads(out + [RS] + PrintWindow(w) + PrintTabs(w.tabs), frontmost,
                  Reading(windows + [SeenWindow(w, frontmost)], w.active))
  {
    OneWindow(Reading(windows, active), w, frontmost);
    ReadOn(out, frontmost, Reading(windows, active), PrintWindow(w),
           Reading(windows + [Partly(w, 0, frontmost)], w.active));
    TabsReadBack(out + [RS] + PrintWindow(w), frontmost, windows, w, |w.tabs|);
    assert w.tabs[..|w.tabs|] == w.tabs;
  }

  lemma HeadFields(frontmost: bool)
    ensures Split(PrintHead(frontmost), US) == ["up", if frontmost then "true" else "false"]
  {
    SplitWhole("up", US);
    SplitWhole("true", US);
    SplitWhole("false", US);
    SplitAppend("up", if frontmost then "true" else "false", US);
  }

  /** Parsing what the script printed gives back what the browser shows. */
  lemma PrintedIsReadBack(c: Chrome)
    requires Printable(c)
    ensures Described(Print(c)) == Some(Seen(c))
  {
    var active := WindowsReadBack(c.frontmost, c.windows);
    HeadFields(c.frontmost);
    assert Print(c)[0] == 'u';
  }

  // --- through the script runner -------------------------------------------------------

  /** The runner ends its output in a newline and drops all trailing ones. */
  function TrimNewlines(s: string): string {
    if s != "" && s[|s| - 1] == '\n' then TrimNewlines(s[..|s| - 1]) else s
  }

  function Polled(c: Chrome): Option<Snapshot> {
    Described(TrimNewlines(Print(c) + "\n"))
  }

  predicate EndsInNewline(s: string) {
    s != "" && s[|s| - 1] == '\n'
  }

  /** The very last title printed ends in a newline. */
  predicate LastTitleEndsInNewline(c: Chrome) {
    c.windows != [] && var tabs := c.windows[|c.windows| - 1].tabs; tabs != [] && EndsInNewline(tabs[|tabs| - 1].title)
  }

  predicate HasLastTab(c: Chrome) {
    c.windows != [] && c.windows[|c.windows| - 1].tabs != []
  }

  function LastTitle(c: Chrome): string
    requires HasLastTab(c)
  {
    var tabs := c.windows[|c.windows| - 1].tabs;
    tabs[|tabs| - 1].title
  }

  function WithLastTitle(c: Chrome, title: string): Chrome
    requires HasLastTab(c)
  {
    var n := |c.windows| - 1;
    var w := c.windows[n];
    var m := |w.tabs| - 1;
    c.(windows := c.windows[..n] + [w.(tabs := w.tabs[..m] + [w.tabs[m].(title := title)])])
  }

  /** All that is printed before the last title. */
  function BeforeLastTitle(c: Chrome): string
    requires HasLastTab(c)
  {
    var n := |c.windows| - 1;
    var w := c.windows[n];
    var m := |w.tabs| - 1;
    PrintHead(c.frontmost) + (PrintWindows(c.windows[..n]) + [RS] + PrintWindow(w) + (PrintTabs(w.tabs[..m]) + [RS] +
    ("t" + [US] + w.tabs[m].id + [US] + w.tabs[m].url + [US])))
  }

  lemma Nested(a: string, b: string, c: string, d: string, e: string)
    ensures a + (b + (c + (d + e))) == a + (b + (c + d)) + e
  {
  }

  lemma LastTitlePrinted(c: Chrome, title: string)
    requires HasLastTab(c)
    ensures Print(WithLastTitle(c, title)) == BeforeLastTitle(c) + title
  {
    var n := |c.windows| - 1;
    var w := c.windows[n];
    var m := |w.tabs| - 1;
    var t := w.tabs[m].(title := title);
    var w' := w.(tabs := w.tabs[..m] + [t]);
    assert w'.tabs[..m] == w.tabs[..m];
    assert WithLastTitle(c, title).windows[..n] == c.windows[..n];
    Nested(PrintHead(c.frontmost), PrintWindows(c.windows[..n]) + [RS] + PrintWindow(w), PrintTabs(w.tabs[..m]) + [RS],
           "t" + [US] + t.id + [US] + t.url + [US], title);
  }

  lemma {:induction false} TrimAppended(a: string, b: string)
    requires a != "" && !EndsInNewline(a)
    ensures TrimNewlines(a + b) == a + TrimNewlines(b)
  {
    if b == "" {
      assert a + b == a;
    } else if EndsInNewline(b) {
      assert (a + b)[..|a + b| - 1] == a + b[..|b| - 1];
      TrimAppended(a, b[..|b| - 1]);
    }
  }

  lemma {:induction false} TrimShortens(s: string)
    ensures EndsInNewline(s) <==> TrimNewlines(s) != s
    ensures TrimNewlines(s) <= s
  {
    if EndsInNewline(s) {
      TrimShortens(s[..|s| - 1]);
    }
  }

  lemma OneMoreNewline(s: string)
    ensures TrimNewlines(s + "\n") == TrimNewlines(s)
  {
    assert (s + "\n")[..|s|] == s;
  }

  lemma WithoutLastTab(c: Chrome)
    requires !HasLastTab(c)
    ensures !EndsInNewline(Print(c))
  {
    if c.windows != [] {
      var w := c.windows[|c.windows| - 1];
      DecimalRoundTrip(w.active);
      var d := Decimal(w.active);
      assert Print(c)[|Print(c)| - 1] == d[|d| - 1];
    }
  }

  lemma LastTitleSeen(c: Chrome, title: string)
    requires HasLastTab(c)
    ensures Seen(WithLastTitle(c, title)) == Seen(c) ==> title == LastTitle(c)
  {
    var n := |c.windows| - 1;
    var w, w' := c.windows[n], WithLastTitle(c, title).windows[n];
    var m := |w.tabs| - 1;
    var seen, seen' := SeenWindows(c.windows, c.frontmost), SeenWindows(WithLastTitle(c, title).windows, c.frontmost);
    assert seen[|seen| - 1] == SeenWindow(w, c.frontmost) && seen'[|seen'| - 1] == SeenWindow(w', c.frontmost);
    assert SeenWindow(w, c.frontmost).tabs[m].title == w.tabs[m].title;
    assert SeenWindow(w', c.frontmost).tabs[m].title == title;
  }

  /** A poll reads back what the browser shows unless the last title printed
      ends in a newline, which the runner eats. */
  lemma PolledIff(c: Chrome)
    requires Printable(c)
    ensures Polled(c) == Some(Seen(c)) <==> !LastTitleEndsInNewline(c)
  {
    OneMoreNewline(Print(c));
    TrimShortens(Print(c));
    if HasLastTab(c) {
      PolledWithLastTab(c);
    } else {
      WithoutLastTab(c);
      PrintedIsReadBack(c);
    }
  }

  /** One window with one tab whose title ends in a newline is read back
      wrongly. */
  lemma NewlineIsLost(title: string)
    requires EndsInNewline(title) && RS !in title
    ensures var c := Chrome(true, [ShownWindow("1", 1, 1, [ShownTab("2", "u", title)])]);
            Polled(c) != Some(Seen(c))
  {
    var t := ShownTab("2", "u", title);
    var w := ShownWindow("1", 1, 1, [t]);
    assert PrintableTab(t) && PrintableWindow(w);
    PolledIff(Chrome(true, [w]));
  }

  /** The runner trims the last title and nothing else. */
  lemma LastTitleIsTrimmed(c: Chrome)
    requires HasLastTab(c)
    ensures TrimNewlines(Print(c)) == Print(WithLastTitle(c, TrimNewlines(LastTitle(c))))
  {
    var before := BeforeLastTitle(c);
    SameTitle(c);
    LastTitlePrinted(c, LastTitle(c));
    LastTitlePrinted(c, TrimNewlines(LastTitle(c)));
    assert before[|before| - 1] == US;
    TrimAppended(before, LastTitle(c));
  }

  lemma TrimmedIsPolled(c: Chrome)
    requires Printable(c) && HasLastTab(c)
    ensures Polled(c) == Some(Seen(WithLastTitle(c, TrimNewlines(LastTitle(c)))))
  {
    OneMoreNewline(Print(c));
    LastTitleIsTrimmed(c);
    TrimShortens(LastTitle(c));
    TrimmedIsPrintable(c, TrimNewlines(LastTitle(c)));
    PrintedIsReadBack(WithLastTitle(c, TrimNewlines(LastTitle(c))));
  }

  lemma PolledWithLastTab(c: Chrome)
    requires Printable(c) && HasLastTab(c)
    ensures Polled(c) == Some(Seen(c)) <==> !LastTitleEndsInNewline(c)
  {
    TrimmedIsPolled(c);
    TrimShortens(LastTitle(c));
    if LastTitleEndsInNewline(c) {
      LastTitleSeen(c, TrimNewlines(LastTitle(c)));
    } else {
      SameTitle(c);
    }
  }

  lemma SameTitle(c: Chrome)
    requires HasLastTab(c)
    ensures WithLastTitle(c, LastTitle(c)) == c
  {
    var n := |c.windows| - 1;
    var w := c.windows[n];
    var m := |w.tabs| - 1;
    assert w.tabs[..m] + [w.tabs[m]] == w.tabs;
    assert c.windows[..n] + [w] == c.windows;
  }

  lemma TrimmedIsPrintable(c: Chrome, title: string)
    requires Printable(c) && HasLastTab(c)
    requires title <= LastTitle(c)
    ensures Printable(WithLastTitle(c, title))
  {
    var n := |c.windows| - 1;
    var w := c.windows[n];
    assert PrintableWindow(w) && PrintableTab(w.tabs[|w.tabs| - 1]);
    assert PrintableWindow(WithLastTitle(c, title).windows[n]);
  }
}
