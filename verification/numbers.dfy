/** Integer helpers shared by the drag rules and the score: JavaScript's
    `Math.max` and `Math.min` on two integers. */
module Numbers {

  function Max(a: int, b: int): int { if a < b then b else a }

  function Min(a: int, b: int): int { if a < b then a else b }
}
