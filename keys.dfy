/** Key codes as curses' `getch` returns them. */
module Keys {
  type Key = int

  const KeyDown: Key := 258   // curses.KEY_DOWN
  const KeyUp: Key := 259     // curses.KEY_UP
  const KeyLeft: Key := 260   // curses.KEY_LEFT
  const KeyRight: Key := 261  // curses.KEY_RIGHT
  const KeyEnter: Key := 10   // ord('\n')
  const KeyBackspace: Key := 8  // ord('\b')
  const KeyDelete: Key := 127
  const KeyQuit: Key := 113   // ord('q')
  const KeySave: Key := 115   // ord('s')
  const KeyDownload: Key := 100  // ord('d')
}
