/** The one physical memory that all translation regimes share. */
module Memory {

  /** Words of 64 bits, by physical address divided by eight. */
  class Ram {
    var words: seq<nat>

    constructor (words: seq<nat>)
      ensures this.words == words
    {
      this.words := words;
    }
  }
}
