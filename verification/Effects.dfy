/**
 What code can do that is not about defers or error codes: allocate and free,
 open and close directories.
 */
module Effects {
  type Byte = x: int | 0 <= x < 256

  datatype Module = Module(name: string, desc: string)

  /** What a live block holds. */
  datatype Content =
    | Chars(s: string)            // a C string
    | Words(s: string)            // the words wordexp made, the first being `s`
    | Ptrs(ps: seq<int>)          // a dynamic array of char *
    | Mods(ms: seq<Module>)       // a dynamic array of struct module

  /** One effect; what it is done to is its argument. */
  datatype Op =
    | User(tag: int)
    | Alloc(c: Content)      // a new block at the pointer
    | Write(c: Content)      // the block there now holds `c`
    | FreeAt                 // free
    | WordFree               // wordfree, given the bytes of a wordexp_t
    | OpenAt                 // opendir made this handle
    | CloseAt                // closedir
    | FreeNames              // free_dir_content
}
