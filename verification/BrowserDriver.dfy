/** The browser as the service sees it: it lists any windows, fails whenever it
    likes, and gives every window it creates an id of its own. */
module BrowserDriver {
  import opened BrowserTypes

  function ListedIds(windows: seq<Window>): set<WindowId> {
    set i | 0 <= i < |windows| :: windows[i].id
  }

  /** What a window was created from: URLs, or a tab of another window. */
  datatype Origin = FromUrls(urls: seq<Url>) | FromTab(window: WindowId, tab: string)

  datatype Command =
    | Close(window: WindowId)
    | Activate(window: WindowId, tab: string)
    | Move(window: WindowId, tab: string, to: WindowId)

  class Driver {
    /** Whether it answers and carries out whatever it is asked. */
    const reliable: bool
    /** Every window id seen so far, and those announced as created. */
    var known: set<WindowId>
    var announced: set<WindowId>
    /** What was listed, the tabs opened, what each created window was created
        from, and the other commands sent. */
    ghost var listings: seq<seq<Window>>
    ghost var openings: seq<(WindowId, Url)>
    ghost var requested: map<WindowId, Origin>
    ghost var commands: seq<Command>

    constructor (reliable: bool)
      ensures this.reliable == reliable
      ensures known == {} && announced == {} && listings == [] && openings == [] && requested == map[] && commands == []
    {
      this.reliable := reliable;
      known, announced, listings, openings, requested, commands := {}, {}, [], [], map[], [];
    }

    method ListWindows() returns (windows: Option<seq<Window>>)
      modifies this`known, this`listings
      ensures old(known) <= known
      ensures windows.Some? ==> ListedIds(windows.value) <= known
      ensures listings == old(listings) + if windows.Some? then [windows.value] else []
      ensures reliable ==> windows.Some?
    {
      windows := *;
      if reliable && !windows.Some? {
        windows := Some([]);
      }
      if windows.Some? {
        listings := listings + [windows.value];
        known := known + ListedIds(windows.value);
      }
    }

    /** A new window, by creating one or detaching a tab. */
    method NewWindow(origin: Origin) returns (w: Option<Window>)
      modifies this`known, this`requested
      ensures old(known) <= known
      ensures w.Some? ==> w.value.id != "" && w.value.id !in old(known) && w.value.id in known
      ensures w.Some? ==> requested == old(requested)[w.value.id := origin]
      ensures w.None? ==> requested == old(requested)
      ensures reliable ==> w.Some?
    {
      var fails: bool := *;
      if fails && !reliable {
        return None;
      }
      var v: Window := *;
      if v.id == "" || v.id in known {
        var id := NewId();
        v := v.(id := id);
      }
      w := Some(v);
      known := known + {v.id};
      requested := requested[v.id := origin];
    }

    /** An id not seen before. */
    method NewId() returns (id: WindowId)
      ensures id != "" && id !in known
    {
      id := "w";
      ghost var shorter: set<WindowId> := {};
      while id in known
        invariant id != "" && shorter <= known && forall w :: w in shorter ==> |w| < |id|
        decreases |known - shorter|
      {
        assert id in known - shorter;
        assert known - (shorter + {id}) == known - shorter - {id};
        shorter := shorter + {id};
        id := id + "w";
      }
    }

    /** A window is announced as created at most once. */
    method Announce(w: WindowId)
      requires w !in announced
      modifies this`known, this`announced
      ensures known == old(known) + {w} && announced == old(announced) + {w}
    {
      known, announced := known + {w}, announced + {w};
    }

    method OpenTab(w: WindowId, url: Url) returns (tab: Option<Tab>)
      modifies this`openings
      ensures openings == if tab.Some? then old(openings) + [(w, url)] else old(openings)
      ensures reliable ==> tab.Some?
    {
      tab := *;
      if reliable && !tab.Some? {
        tab := Some(Tab("", url, "", false, false));
      }
      if tab.Some? {
        openings := openings + [(w, url)];
      }
    }

    method Send(c: Command) returns (ok: bool)
      modifies this`commands
      ensures commands == old(commands) + [c]
      ensures reliable ==> ok
    {
      commands := commands + [c];
      ok := *;
      ok := ok || reliable;
    }

    /** Whether something outside this model answers. */
    method Answers() returns (ok: bool)
      ensures reliable ==> ok
    {
      ok := *;
      ok := ok || reliable;
    }
  }
}
