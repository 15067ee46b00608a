/** Values shared by the browser modules: tabs, windows, saved rows and the
    order on window ids. A URL carries the parts its parsers extract, so no
    module needs to parse text. */
module BrowserTypes {

  type WindowId = string
  type RowId = nat
  type SessionId = nat
  type Time = nat

  /** Host (already lower-cased) and non-empty path segments of a URL. */
  datatype UrlKey = UrlKey(host: string, segments: seq<string>)

  /** `web`: the text starts with http:// or https://. `norm`: the normalised
      form used for matching, empty when there is none. `key`: present when
      the URL parses and has a host. */
  datatype Url = Url(text: string, web: bool, norm: string, key: Option<UrlKey>)

  datatype Option<+T> = None | Some(value: T)

  datatype Tab = Tab(id: string, url: Url, title: string, active: bool, pinned: bool)

  datatype Window = Window(id: WindowId, focused: bool, tabs: seq<Tab>)

  datatype SavedTab = SavedTab(url: Url, title: string, active: bool, pinned: bool, pending: bool)

  datatype WindowState = Open | Missing | Snapshotted

  datatype Row = Row(session: SessionId, state: WindowState, window: WindowId,
                     focusedAt: Time, tabs: seq<SavedTab>, snapshotAt: Time)

  /** Positions in a list, each once and in order. */
  predicate Increasing(order: seq<nat>) {
    forall i, j :: 0 <= i < j < |order| ==> order[i] < order[j]
  }

  /** One position further. */
  function WithPosition(order: seq<nat>, n: nat, chosen: bool): seq<nat> {
    if chosen then order + [n] else order
  }

  lemma PositionAdded(order: seq<nat>, n: nat, chosen: bool)
    requires Increasing(order) && forall i :: 0 <= i < |order| ==> order[i] < n
    ensures Increasing(WithPosition(order, n, chosen))
    ensures forall k :: k in WithPosition(order, n, chosen) <==> k in order || (chosen && k == n)
    ensures n !in order
  {
  }

  /** `some` are the elements of `all` at these positions. */
  ghost predicate TakenAt<T>(all: seq<T>, some: seq<T>, order: seq<nat>) {
    |order| == |some| && forall i :: 0 <= i < |order| ==> order[i] < |all| && some[i] == all[order[i]]
  }

  lemma TakenOneMore<T>(all: seq<T>, some: seq<T>, order: seq<nat>)
    requires all != [] && TakenAt(all[..|all| - 1], some, order)
    ensures TakenAt(all, some, order)
    ensures TakenAt(all, some + [all[|all| - 1]], order + [|all| - 1])
  {
  }

  /** Byte-wise order of Go strings. */
  predicate StringLess(a: string, b: string) {
    if b == "" then false
    else if a == "" then true
    else a[0] < b[0] || (a[0] == b[0] && StringLess(a[1..], b[1..]))
  }

  lemma {:induction false} StringLessIrreflexive(a: string)
    ensures !StringLess(a, a)
  {
    if a != "" {
      StringLessIrreflexive(a[1..]);
    }
  }

  lemma {:induction false} StringLessTransitive(a: string, b: string, c: string)
    requires StringLess(a, b) && StringLess(b, c)
    ensures StringLess(a, c)
  {
    if a != "" && a[0] == b[0] == c[0] {
      StringLessTransitive(a[1..], b[1..], c[1..]);
    }
  }

  lemma {:induction false} StringLessTotal(a: string, b: string)
    ensures a == b || StringLess(a, b) || StringLess(b, a)
  {
    if a != "" && b != "" && a[0] == b[0] {
      StringLessTotal(a[1..], b[1..]);
      assert a == [a[0]] + a[1..] && b == [b[0]] + b[1..];
    }
  }
}
