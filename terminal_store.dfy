/**
 * The terminal session store: the history of submitted lines with their
 * output, the two modal flags, and the blog panel with the post it shows.
 * Every action overwrites some of these fields and leaves the others alone.
 */
module TerminalStore {
  import opened Wrappers

  /** One `TerminalHistory` entry; `timestamp` is a tick of an abstract clock. */
  datatype HistoryEntry = HistoryEntry(command: string, output: string, timestamp: nat, isError: bool)

  class TerminalSession {
    var history: seq<HistoryEntry>
    var sessionStartTime: nat
    var showImprintModal: bool
    var showWhoamiModal: bool
    var blogPanelOpen: bool
    var currentBlogContent: Option<string>
    var currentBlogTitle: Option<string>

    /** The panel is open exactly when it has a post to show. */
    ghost predicate PanelConsistent()
      reads this
    {
      blogPanelOpen <==> currentBlogContent.Some? && currentBlogTitle.Some?
    }

    /** The initial state: empty history, everything closed. */
    constructor(now: nat)
      ensures PanelConsistent()
      ensures history == [] && sessionStartTime == now
      ensures !showImprintModal && !showWhoamiModal && !blogPanelOpen
      ensures currentBlogContent.None? && currentBlogTitle.None?
    {
      history := [];
      sessionStartTime := now;
      showImprintModal := false;
      showWhoamiModal := false;
      blogPanelOpen := false;
      currentBlogContent := None;
      currentBlogTitle := None;
    }

    /** `addHistory`: one entry at the end; `isError` is false unless given. */
    method AddHistory(command: string, output: string, now: nat, isError: bool := false)
      modifies this
      ensures history == old(history) + [HistoryEntry(command, output, now, isError)]
      ensures |history| == |old(history)| + 1 && history[..|old(history)|] == old(history)
      ensures sessionStartTime == old(sessionStartTime)
      ensures showImprintModal == old(showImprintModal) && showWhoamiModal == old(showWhoamiModal)
      ensures blogPanelOpen == old(blogPanelOpen)
      ensures currentBlogContent == old(currentBlogContent) && currentBlogTitle == old(currentBlogTitle)
      ensures old(PanelConsistent()) ==> PanelConsistent()
    {
      history := history + [HistoryEntry(command, output, now, isError)];
    }

    /** `clearHistory` */
    method ClearHistory()
      modifies this
      ensures history == []
      ensures sessionStartTime == old(sessionStartTime)
      ensures showImprintModal == old(showImprintModal) && showWhoamiModal == old(showWhoamiModal)
      ensures blogPanelOpen == old(blogPanelOpen)
      ensures currentBlogContent == old(currentBlogContent) && currentBlogTitle == old(currentBlogTitle)
      ensures old(PanelConsistent()) ==> PanelConsistent()
    {
      history := [];
    }

    /** `setShowImprintModal` */
    method SetShowImprintModal(show: bool)
      modifies this
      ensures showImprintModal == show
      ensures history == old(history) && sessionStartTime == old(sessionStartTime)
      ensures showWhoamiModal == old(showWhoamiModal)
      ensures blogPanelOpen == old(blogPanelOpen)
      ensures currentBlogContent == old(currentBlogContent) && currentBlogTitle == old(currentBlogTitle)
      ensures old(PanelConsistent()) ==> PanelConsistent()
    {
      showImprintModal := show;
    }

    /** `setShowWhoamiModal` */
    method SetShowWhoamiModal(show: bool)
      modifies this
      ensures showWhoamiModal == show
      ensures history == old(history) && sessionStartTime == old(sessionStartTime)
      ensures showImprintModal == old(showImprintModal)
      ensures blogPanelOpen == old(blogPanelOpen)
      ensures currentBlogContent == old(currentBlogContent) && currentBlogTitle == old(currentBlogTitle)
      ensures old(PanelConsistent()) ==> PanelConsistent()
    {
      showWhoamiModal := show;
    }

    /** `openBlogPanel`: shows the given post. */
    method OpenBlogPanel(content: string, title: string)
      modifies this
      ensures blogPanelOpen && currentBlogContent == Some(content) && currentBlogTitle == Some(title)
      ensures PanelConsistent()
      ensures history == old(history) && sessionStartTime == old(sessionStartTime)
      ensures showImprintModal == old(showImprintModal) && showWhoamiModal == old(showWhoamiModal)
    {
      blogPanelOpen := true;
      currentBlogContent := Some(content);
      currentBlogTitle := Some(title);
    }

    /** `closeBlogPanel`: hides the panel and forgets the post. */
    method CloseBlogPanel()
      modifies this
      ensures !blogPanelOpen && currentBlogContent.None? && currentBlogTitle.None?
      ensures PanelConsistent()
      ensures history == old(history) && sessionStartTime == old(sessionStartTime)
      ensures showImprintModal == old(showImprintModal) && showWhoamiModal == old(showWhoamiModal)
    {
      blogPanelOpen := false;
      currentBlogContent := None;
      currentBlogTitle := None;
    }
  }
}
