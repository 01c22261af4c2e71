/** Integer helpers shared by the limiter and the recall tool. */
module Numbers {

  function Min(a: int, b: int): int {
    if a <= b then a else b
  }
}
