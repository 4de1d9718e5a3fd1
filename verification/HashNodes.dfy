// The hash node of wordhash.h.  Its first field is the link that listsort.c
// knows as the next field of a list element.

module HashNodes {
  import opened Words

  type Uint = x: int | 0 <= x < 0x1_0000_0000

  /** The properties kept with a word: wordprop_t. */
  class WordProp {
    var freq: int
    var good: Uint
    var bad: Uint
    var used: bool

    constructor ()
      ensures freq == 0 && good == 0 && bad == 0 && !used
    {
      freq, good, bad, used := 0, 0, 0, false;
    }
  }

  class HashNode {
    var iterNext: HashNode?
    var next: HashNode?
    const key: Word
    const data: WordProp

    constructor (key: Word, data: WordProp)
      ensures this.key == key && this.data == data && iterNext == null && next == null
    {
      this.key, this.data := key, data;
      iterNext, next := null, null;
    }
  }
}
