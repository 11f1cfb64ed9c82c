/**
 * The frontend's command palette (command-palette.component.ts): a hidden
 * overlay that Cmd+K or Ctrl+K toggles, with a search field, a selection
 * index moved by the arrow keys, and Enter running the selected command.
 *
 * A command's `action` is recorded rather than run: `executed` lists the
 * commands whose action ran, oldest first. The keyboard event is its key
 * and its two modifier flags; `preventDefault` is not modelled.
 */
module CommandPalette {
  import opened Wrappers
  import opened JsText
  import opened Lists

  /** `Command`, without its `action`; its `label` is `name` here. */
  datatype Command = Command(id: string, name: string, icon: Option<string>, shortcut: Option<string>)

  /** The five commands the component starts with. */
  const DefaultCommands: seq<Command> := [
    Command("new-chat", "新しいチャット", Some("➕"), Some("Cmd+N")),
    Command("clear-chat", "チャットをクリア", Some("🗑️"), Some("Cmd+L")),
    Command("toggle-sidebar", "サイドバー切り替え", Some("📁"), Some("Cmd+B")),
    Command("settings", "設定", Some("⚙️"), Some("Cmd+,")),
    Command("help", "ヘルプ", Some("❓"), Some("Cmd+/"))
  ]

  /** The lowercased label contains the lowercased query. */
  predicate LabelMatches(query: string, command: Command) {
    Includes(ToLower(command.name), ToLower(query))
  }

  function Matcher(query: string): Command -> bool {
    command => LabelMatches(query, command)
  }

  /** Every label contains the empty query, so filtering by it keeps everything. */
  lemma EmptyQueryKeepsAll(commands: seq<Command>)
    ensures Filter(commands, Matcher("")) == commands
  {
    forall k | 0 <= k < |commands| ensures Matcher("")(commands[k]) {
      assert OccursAt(ToLower(commands[k].name), ToLower(""), 0);
    }
    FilterAll(commands, Matcher(""));
  }

  /**
   * `getFilteredCommands`: all commands for an empty query, and otherwise
   * exactly those whose label matches, in their original order.
   */
  function Filtered(commands: seq<Command>, query: string): (r: seq<Command>)
    ensures query == "" ==> r == commands
    ensures forall c :: c in r <==> c in commands && LabelMatches(query, c)
    ensures Subsequence(r, commands)
  {
    FilterMembers(commands, Matcher(query));
    FilterOrdered(commands, Matcher(query));
    if query == "" then
      EmptyQueryKeepsAll(commands);
      commands
    else
      Filter(commands, Matcher(query))
  }

  lemma NewChatMatches(command: Command)
    requires command.name == "New Chat"
    ensures LabelMatches("chat", command)
  {
    var a := ToLower(command.name);
    assert ToLower("chat") == "chat";
    assert a[4..8] == "chat";
    assert OccursAt(a, "chat", 4);
  }

  lemma ClearChatMatches(command: Command)
    requires command.name == "Clear Chat"
    ensures LabelMatches("chat", command)
  {
    var b := ToLower(command.name);
    assert ToLower("chat") == "chat";
    assert b[6..10] == "chat";
    assert OccursAt(b, "chat", 6);
  }

  lemma SettingsDoesNotMatch(command: Command)
    requires command.name == "Settings"
    ensures !LabelMatches("chat", command)
  {
    var c := ToLower(command.name);
    assert ToLower("chat") == "chat";
    assert 'c' !in c by {
      forall k | 0 <= k < |c| ensures c[k] != 'c' {
        assert c[k] == LowerChar(command.name[k]);
      }
    }
    MissingLetter(c, "chat", 'c');
  }

  /** The search example of the component's tests: `chat` finds both chat commands, in order. */
  lemma ChatSearch(newChat: Command, clearChat: Command, settings: Command)
    requires newChat.name == "New Chat" && clearChat.name == "Clear Chat" && settings.name == "Settings"
    ensures Filtered([newChat, clearChat, settings], "chat") == [newChat, clearChat]
  {
    NewChatMatches(newChat);
    ClearChatMatches(clearChat);
    SettingsDoesNotMatch(settings);
    var keep := Matcher("chat");
    assert keep(newChat) && keep(clearChat) && !keep(settings);
    var all := [newChat, clearChat, settings];
    assert all[1..] == [clearChat, settings] && all[1..][1..] == [settings] && [settings][1..] == [];
    assert Filter([settings], keep) == [];
    assert Filter([clearChat, settings], keep) == [clearChat];
  }

  function Min(a: int, b: int): int {
    if a <= b then a else b
  }

  function Max(a: int, b: int): int {
    if a >= b then a else b
  }

  /** The component's fields, as one value. */
  datatype Palette = Palette(isVisible: bool, searchQuery: string, selectedIndex: int,
                             commands: seq<Command>, executed: seq<Command>)

  /** `open`: visible, with an empty query and the first command selected. */
  function Opened(p: Palette): Palette {
    p.(isVisible := true, searchQuery := "", selectedIndex := 0)
  }

  /** `close`: hidden; the query and the index stay as they were. */
  function Closed(p: Palette): Palette {
    p.(isVisible := false)
  }

  /** `toggle`: closes a visible palette and opens a hidden one. */
  function Toggled(p: Palette): (r: Palette)
    ensures r.isVisible == !p.isVisible
    ensures r.commands == p.commands && r.executed == p.executed
  {
    if p.isVisible then Closed(p) else Opened(p)
  }

  /** `executeCommand`: the command's action runs once, then the palette closes. */
  function Executed(p: Palette, command: Command): (r: Palette)
    ensures !r.isVisible && r.executed == p.executed + [command]
    ensures r.searchQuery == p.searchQuery && r.selectedIndex == p.selectedIndex && r.commands == p.commands
  {
    Closed(p.(executed := p.executed + [command]))
  }

  /**
   * `handleKeydown`, in its three steps: the shortcut toggles; Escape
   * closes a visible palette; then, if the palette is visible, the arrows
   * move the index and Enter runs the selected command if there is one.
   */
  function KeyStep(p: Palette, key: string, metaKey: bool, ctrlKey: bool): (r: Palette)
    ensures r.commands == p.commands
  {
    var p1 := if (metaKey || ctrlKey) && key == "k" then Toggled(p) else p;
    var p2 := if key == "Escape" && p1.isVisible then Closed(p1) else p1;
    if !p2.isVisible then p2
    else if key == "ArrowDown" then
      p2.(selectedIndex := Min(p2.selectedIndex + 1, |Filtered(p2.commands, p2.searchQuery)| - 1))
    else if key == "ArrowUp" then
      p2.(selectedIndex := Max(p2.selectedIndex - 1, 0))
    else if key == "Enter" then
      var commands := Filtered(p2.commands, p2.searchQuery);
      if 0 <= p2.selectedIndex < |commands| then Executed(p2, commands[p2.selectedIndex]) else p2
    else p2
  }

  /**
   * Cmd+K and Ctrl+K flip the visibility; opening clears the query and
   * selects the first command, closing keeps both. Nothing runs.
   */
  lemma ShortcutToggles(p: Palette, metaKey: bool, ctrlKey: bool)
    requires metaKey || ctrlKey
    ensures KeyStep(p, "k", metaKey, ctrlKey).isVisible == !p.isVisible
    ensures !p.isVisible ==> KeyStep(p, "k", metaKey, ctrlKey) == p.(isVisible := true, searchQuery := "", selectedIndex := 0)
    ensures p.isVisible ==> KeyStep(p, "k", metaKey, ctrlKey) == p.(isVisible := false)
  {
  }

  /** A plain `k`, without either modifier, changes nothing while the palette is hidden. */
  lemma PlainKWhileHidden(p: Palette)
    requires !p.isVisible
    ensures KeyStep(p, "k", false, false) == p
  {
  }

  /** Escape leaves the palette hidden, and changes nothing else, whether or not it was visible. */
  lemma EscapeCloses(p: Palette, metaKey: bool, ctrlKey: bool)
    ensures KeyStep(p, "Escape", metaKey, ctrlKey) == p.(isVisible := false)
  {
  }

  /** While hidden, every key but the shortcut is ignored. */
  lemma HiddenIgnoresKeys(p: Palette, key: string, metaKey: bool, ctrlKey: bool)
    requires !p.isVisible && !((metaKey || ctrlKey) && key == "k")
    ensures KeyStep(p, key, metaKey, ctrlKey) == p
  {
  }

  /** ArrowUp moves the selection up by one, and never below the first command. */
  lemma ArrowUpStep(p: Palette, metaKey: bool, ctrlKey: bool)
    requires p.isVisible
    ensures var r := KeyStep(p, "ArrowUp", metaKey, ctrlKey);
      && r == p.(selectedIndex := r.selectedIndex)
      && r.selectedIndex >= 0
      && (p.selectedIndex >= 1 ==> r.selectedIndex == p.selectedIndex - 1)
      && (p.selectedIndex < 1 ==> r.selectedIndex == 0)
  {
  }

  /**
   * ArrowDown moves the selection down by one, and never past the last
   * filtered command; with no command matching, the index becomes -1.
   */
  lemma ArrowDownStep(p: Palette, metaKey: bool, ctrlKey: bool)
    requires p.isVisible && p.selectedIndex >= -1
    ensures var r := KeyStep(p, "ArrowDown", metaKey, ctrlKey);
      var n := |Filtered(p.commands, p.searchQuery)|;
      && r == p.(selectedIndex := r.selectedIndex)
      && r.selectedIndex <= n - 1
      && (p.selectedIndex + 1 <= n - 1 ==> r.selectedIndex == p.selectedIndex + 1)
      && (n == 0 ==> r.selectedIndex == -1)
  {
  }

  /** The index never drops below -1: it starts at 0, and no key takes it lower. */
  lemma IndexAtLeastMinusOne(p: Palette, key: string, metaKey: bool, ctrlKey: bool)
    requires p.selectedIndex >= -1
    ensures KeyStep(p, key, metaKey, ctrlKey).selectedIndex >= -1
  {
  }

  /** An index on a filtered command stays on one under either arrow. */
  lemma ArrowsKeepIndexInRange(p: Palette, key: string, metaKey: bool, ctrlKey: bool)
    requires key == "ArrowUp" || key == "ArrowDown"
    requires 0 <= p.selectedIndex < |Filtered(p.commands, p.searchQuery)|
    ensures 0 <= KeyStep(p, key, metaKey, ctrlKey).selectedIndex < |Filtered(p.commands, p.searchQuery)|
  {
  }

  /**
   * Enter runs the selected filtered command once and closes the palette
   * when the index is on a command; otherwise it changes nothing.
   */
  lemma EnterRunsSelected(p: Palette, metaKey: bool, ctrlKey: bool)
    requires p.isVisible
    ensures var commands := Filtered(p.commands, p.searchQuery);
      var r := KeyStep(p, "Enter", metaKey, ctrlKey);
      && (0 <= p.selectedIndex < |commands| ==>
            r == p.(isVisible := false, executed := p.executed + [commands[p.selectedIndex]]))
      && (!(0 <= p.selectedIndex < |commands|) ==> r == p)
  {
  }

  /** No key runs more than one command, and only Enter runs one. */
  lemma AtMostOneRun(p: Palette, key: string, metaKey: bool, ctrlKey: bool)
    ensures var r := KeyStep(p, key, metaKey, ctrlKey);
      r.executed == p.executed || (key == "Enter" && p.isVisible && |r.executed| == |p.executed| + 1 && r.executed[..|p.executed|] == p.executed)
  {
  }

  /** `CommandPaletteComponent`. */
  class CommandPaletteComponent {
    var isVisible: bool
    var searchQuery: string
    var selectedIndex: int
    var commands: seq<Command>
    /** The commands whose action ran, oldest first. */
    var executed: seq<Command>

    function State(): Palette
      reads this
    {
      Palette(isVisible, searchQuery, selectedIndex, commands, executed)
    }

    constructor()
      ensures State() == Palette(false, "", 0, DefaultCommands, [])
    {
      isVisible := false;
      searchQuery := "";
      selectedIndex := 0;
      commands := DefaultCommands;
      executed := [];
    }

    /** The search field's binding: typing replaces the query. */
    method SetSearchQuery(query: string)
      modifies this
      ensures State() == old(State()).(searchQuery := query)
    {
      searchQuery := query;
    }

    /** The command list is a public field that can be replaced. */
    method SetCommands(list: seq<Command>)
      modifies this
      ensures State() == old(State()).(commands := list)
    {
      commands := list;
    }

    method Open()
      modifies this
      ensures State() == Opened(old(State()))
    {
      isVisible := true;
      searchQuery := "";
      selectedIndex := 0;
    }

    method Close()
      modifies this
      ensures State() == Closed(old(State()))
    {
      isVisible := false;
    }

    method Toggle()
      modifies this
      ensures State() == Toggled(old(State()))
    {
      if isVisible {
        Close();
      } else {
        Open();
      }
    }

    /** `onOverlayClick`: a click outside the dialog closes it. */
    method OnOverlayClick()
      modifies this
      ensures State() == Closed(old(State()))
    {
      Close();
    }

    /** `onSearchChange`: a new query selects the first command again. */
    method OnSearchChange()
      modifies this
      ensures State() == old(State()).(selectedIndex := 0)
    {
      selectedIndex := 0;
    }

    /** `getFilteredCommands`. */
    function GetFilteredCommands(): (r: seq<Command>)
      reads this
      ensures forall c :: c in r <==> c in commands && LabelMatches(searchQuery, c)
    {
      Filtered(commands, searchQuery)
    }

    method ExecuteCommand(command: Command)
      modifies this
      ensures State() == Executed(old(State()), command)
    {
      executed := executed + [command];
      Close();
    }

    method HandleKeydown(key: string, metaKey: bool, ctrlKey: bool)
      modifies this
      ensures State() == KeyStep(old(State()), key, metaKey, ctrlKey)
    {
      if (metaKey || ctrlKey) && key == "k" {
        Toggle();
      }
      if key == "Escape" && isVisible {
        Close();
      }
      if isVisible {
        if key == "ArrowDown" {
          selectedIndex := Min(selectedIndex + 1, |GetFilteredCommands()| - 1);
        }
        if key == "ArrowUp" {
          selectedIndex := Max(selectedIndex - 1, 0);
        }
        if key == "Enter" {
          var list := GetFilteredCommands();
          if 0 <= selectedIndex < |list| {
            ExecuteCommand(list[selectedIndex]);
          }
        }
      }
    }
  }

  /**
   * The component's tests in one run: it starts hidden; Cmd+K shows it;
   * Escape hides it; Ctrl+K shows it again; running a command runs it once
   * and hides the palette; a click on the overlay hides it.
   */
  method KeyboardScenario(command: Command) returns (initially: bool, afterCmdK: bool, afterEscape: bool,
                                                     afterCtrlK: bool, afterRun: bool, ran: seq<Command>,
                                                     afterClick: bool)
    ensures !initially && afterCmdK && !afterEscape && afterCtrlK
    ensures !afterRun && ran == [command] && !afterClick
  {
    var palette := new CommandPaletteComponent();
    initially := palette.isVisible;
    palette.HandleKeydown("k", true, false);
    afterCmdK := palette.isVisible;
    palette.HandleKeydown("Escape", false, false);
    afterEscape := palette.isVisible;
    palette.HandleKeydown("k", false, true);
    afterCtrlK := palette.isVisible;
    palette.ExecuteCommand(command);
    afterRun, ran := palette.isVisible, palette.executed;
    palette.Open();
    palette.OnOverlayClick();
    afterClick := palette.isVisible;
  }
}
