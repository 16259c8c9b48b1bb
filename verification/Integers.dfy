module Integers {
  function Min(a: int, b: int): int { if b < a then b else a }
}
