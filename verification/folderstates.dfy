/**
 * The folder-expansion map (`folderStates`): full folder path to the flag saved
 * by the last toggle of that folder. Rendering reads it; a toggle writes it.
 * The copy persisted to local storage is not modelled, only the in-memory map.
 */
module FolderStates {

  type States = map<string, bool>

  /**
   * `folderStates[fullPath] !== false`: a folder with no saved flag is shown
   * expanded; only a saved `false` collapses it.
   */
  function IsExpanded(states: States, path: string): (expanded: bool)
    ensures path !in states ==> expanded
    ensures path in states ==> expanded == states[path]
  {
    !(path in states && states[path] == false)
  }

  /**
   * `toggleFolder` for the folder at `path`: the folder's displayed state is the
   * one `IsExpanded` gave it when rendered (and every earlier toggle flipped both
   * together), so the new flag is its negation, saved under `path` alone.
   */
  function Toggle(states: States, path: string): (r: States)
    ensures r.Keys == states.Keys + {path}
    ensures path in r && r[path] == !IsExpanded(states, path)
    ensures forall k :: k in states && k != path ==> r[k] == states[k]
  {
    states[path := !IsExpanded(states, path)]
  }

  /** A toggle flips the visibility of its own folder and of no other. */
  lemma ToggleFlips(states: States, path: string, q: string)
    ensures IsExpanded(Toggle(states, path), q) == if q == path then !IsExpanded(states, q) else IsExpanded(states, q)
  {
  }

  /**
   * Two toggles restore every folder's visibility; the map itself differs from
   * the original only in now holding an explicit flag for `path`.
   */
  lemma ToggleTwice(states: States, path: string)
    ensures forall q :: IsExpanded(Toggle(Toggle(states, path), path), q) == IsExpanded(states, q)
    ensures Toggle(Toggle(states, path), path) == states[path := IsExpanded(states, path)]
  {
    forall q
      ensures IsExpanded(Toggle(Toggle(states, path), path), q) == IsExpanded(states, q)
    {
      ToggleFlips(states, path, q);
      ToggleFlips(Toggle(states, path), path, q);
    }
  }
}
