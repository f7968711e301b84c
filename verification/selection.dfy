/**
 * The selection state of the page: `fileContext` (selected path to file text,
 * in insertion order), the set of tree checkboxes that are ticked (by their
 * `data-path`), and the rows the selected-files panel shows. Reading a file is
 * taken to complete at once, so a tick stores the file's text immediately.
 */
module Selection {
  import opened Wrappers
  import opened Dict

  datatype State = State(context: Dict<string>, checked: set<string>, panel: seq<string>)

  /**
   * What `document.querySelector` gives for the checkbox selector built from a
   * path pasted unescaped between double quotes: the checkbox it matched (by
   * its `data-path`), no match, or a thrown syntax error.
   */
  datatype Query = Found(dataPath: string) | NotFound | Invalid

  datatype Event =
    | Check(path: string, content: string)  // checkbox ticked; its reader delivered `content`
    | Uncheck(path: string)                 // checkbox cleared by the user
    | Remove(path: string, lookup: Query)   // × pressed in the panel; the checkbox lookup gave `lookup`
    | NewDirectory(fileCount: nat)          // the file input changed, holding `fileCount` files

  /** Ticked checkboxes are exactly the selected paths. */
  ghost predicate Consistent(s: State) {
    forall p :: p in s.checked <==> p in Keys(s.context)
  }

  /** The panel shows the current selection. */
  predicate PanelFresh(s: State) {
    s.panel == PanelRows(s.context)
  }

  /** The selected-files panel as `updateSelectedFiles` draws it: one row per selected path, in insertion order. */
  function PanelRows(context: Dict<string>): (rows: seq<string>)
    ensures forall p :: p in rows <==> Get(context, p).Some?
    ensures |rows| == |context|
  {
    Keys(context)
  }

  /** Dropping `path` from the selection, clearing the checkbox `tick` and redrawing the panel. */
  function Deselect(s: State, path: string, tick: string): (r: State)
    ensures Get(r.context, path) == None && forall q :: q != path ==> Get(r.context, q) == Get(s.context, q)
    ensures r.checked == s.checked - {tick} && PanelFresh(r)
    ensures Consistent(s) && tick == path ==> Consistent(r)
  {
    var context := Delete(s.context, path);
    assert forall p :: p in Keys(context) <==> p in Keys(s.context) && p != path by {
      forall p
        ensures p in Keys(context) <==> p in Keys(s.context) && p != path
      {
        assert Get(context, p).Some? <==> p in Keys(context);
      }
    }
    State(context, s.checked - {tick}, PanelRows(context))
  }

  /**
   * The effect of one user action. A removal clears whatever checkbox the
   * lookup matched; a lookup that throws stops the handler after the delete,
   * before the tick and the panel are touched. A new pick of files empties
   * the selection and rebuilds the tree, but leaves the panel as it was.
   */
  function Step(s: State, ev: Event): (r: State)
    ensures ev.Check? ==>
              Get(r.context, ev.path) == Some(ev.content) && r.checked == s.checked + {ev.path} && PanelFresh(r)
    ensures ev.Uncheck? ==> Get(r.context, ev.path) == None && r.checked == s.checked - {ev.path} && PanelFresh(r)
    ensures ev.Remove? ==> Get(r.context, ev.path) == None
    ensures ev.Remove? && ev.lookup.Found? ==> r.checked == s.checked - {ev.lookup.dataPath} && PanelFresh(r)
    ensures ev.Remove? && ev.lookup.NotFound? ==> r.checked == s.checked && PanelFresh(r)
    ensures ev.Remove? && ev.lookup.Invalid? ==> r.checked == s.checked && r.panel == s.panel
    ensures !ev.NewDirectory? ==> forall q :: q != ev.path ==> Get(r.context, q) == Get(s.context, q)
    ensures ev.NewDirectory? && ev.fileCount == 0 ==> r == s
    ensures ev.NewDirectory? && ev.fileCount > 0 ==> r.context == [] && r.checked == {} && r.panel == s.panel
    ensures Consistent(s) && (ev.Remove? ==> ev.lookup == Found(ev.path)) ==> Consistent(r)
  {
    match ev
    case Check(path, content) =>
      var context := Set(s.context, path, content);
      assert forall p :: p in Keys(context) <==> p in Keys(s.context) || p == path by {
        forall p
          ensures p in Keys(context) <==> p in Keys(s.context) || p == path
        {
          assert Get(context, p).Some? <==> p in Keys(context);
        }
      }
      State(context, s.checked + {path}, PanelRows(context))
    case Uncheck(path) => Deselect(s, path, path)
    case Remove(path, lookup) =>
      (match lookup
       case Found(tick) => Deselect(s, path, tick)
       case NotFound => Deselect(s, path, path).(checked := s.checked)
       case Invalid => s.(context := Delete(s.context, path)))
    case NewDirectory(n) => if n == 0 then s else s.(context := [], checked := {})
  }

  /**
   * A removal whose lookup misses the path's own checkbox (a path holding a
   * double quote makes the selector invalid; a backslash is read as a CSS
   * escape) leaves that checkbox ticked although the file is no longer
   * selected.
   */
  lemma RemoveMissKeepsTick(s: State, path: string, lookup: Query)
    requires Consistent(s) && path in Keys(s.context) && lookup != Found(path)
    ensures var r := Step(s, Remove(path, lookup));
            path in r.checked && Get(r.context, path) == None && !Consistent(r)
  {
    var r := Step(s, Remove(path, lookup));
    assert path !in Keys(r.context);
  }

  /** Picking a new non-empty set of files after choosing some leaves their rows in the panel over an empty selection. */
  lemma NewDirectoryLeavesPanel(s: State, n: nat)
    requires PanelFresh(s) && s.context != [] && n > 0
    ensures var r := Step(s, NewDirectory(n));
            r.context == [] && |r.panel| == |s.context| > 0 && !PanelFresh(r)
  {
  }

  /**
   * The step with the checkbox found by its exact path (as an escaped
   * selector finds it) and the panel redrawn after a new pick: it keeps the
   * ticks and the panel in step with the selection.
   */
  function FixedStep(s: State, ev: Event): (r: State)
    ensures Consistent(s) ==> Consistent(r)
    ensures PanelFresh(s) ==> PanelFresh(r)
    ensures !(ev.NewDirectory? && ev.fileCount == 0) ==> PanelFresh(r)
    ensures ev.Remove? ==> Get(r.context, ev.path) == None && ev.path !in r.checked
    ensures !ev.NewDirectory? ==> forall q :: q != ev.path ==> Get(r.context, q) == Get(s.context, q)
  {
    match ev
    case Remove(path, _) => Deselect(s, path, path)
    case NewDirectory(n) => if n == 0 then s else State([], {}, [])
    case _ => Step(s, ev)
  }

  /** Wherever the lookup finds the path's own checkbox, the fixed step is the program's step. */
  lemma FixedStepAgrees(s: State, ev: Event)
    requires !ev.NewDirectory? && (ev.Remove? ==> ev.lookup == Found(ev.path))
    ensures FixedStep(s, ev) == Step(s, ev)
  {
  }

  /** Ticking a file that was not selected and then clearing it restores the selection, with the panel redrawn. */
  lemma CheckThenUncheck(s: State, path: string, content: string)
    requires Consistent(s) && Get(s.context, path).None?
    ensures Step(Step(s, Check(path, content)), Uncheck(path)) == s.(panel := PanelRows(s.context))
  {
    SetThenDelete(s.context, path, content);
  }

  /** Ticking a file and then removing it from the panel also restores the selection when the lookup finds its checkbox. */
  lemma CheckThenRemove(s: State, path: string, content: string)
    requires Consistent(s) && Get(s.context, path).None?
    ensures Step(Step(s, Check(path, content)), Remove(path, Found(path))) == s.(panel := PanelRows(s.context))
  {
    SetThenDelete(s.context, path, content);
  }
}
