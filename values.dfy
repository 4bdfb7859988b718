/** Values shared by the secure-display adapters. */
module Values {

  /** Identity of an Electron BrowserWindow. The adapters only hold references to
      windows (a WeakSet, a Map key); they never create or destroy them. */
  type WindowId = nat

  /** The value a caller hands to protectWindow / unprotectWindow. Both adapters
      return at once unless it is an instance of BrowserWindow. */
  datatype Arg = BrowserWindow(win: WindowId) | NotBrowserWindow

  datatype Option<T> = None | Some(value: T)
}
