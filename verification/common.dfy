/**
 Shared vocabulary: identifiers, money, optional (nullable) values, and the
 business errors every service raises. Each `BusinessException` of the
 services becomes one `Error` constructor; a thrown exception becomes an
 `Err` result, which leaves every repository as it was.
 */
module Common {
  import opened StatusPedido

  /** Entity identifiers (the `Long` ids the repositories generate). */
  type Id = int

  /** Monetary amounts in cents; the services only add and compare them. */
  type Money = int

  /** Opaque timestamps (`LocalDateTime`), supplied by the caller. */
  type Instant = int

  /** One currency unit (`BigDecimal.valueOf(1)`) in cents. */
  const Unidade: Money := 100

  /** A nullable field of a request object. */
  datatype Option<+T> = None | Some(value: T)

  datatype Error =
    // PedidoService
    | ClienteNaoEncontrado(clienteId: Id)
    | ClienteInativo
    | RestauranteNaoEncontrado(restauranteId: Id)
    | RestauranteIndisponivel
    | FormatoItensInvalido
    | ProdutoNaoEncontrado(produtoId: Id)
    | ProdutoIndisponivel(produtoId: Id)
    | ProdutoDeOutroRestaurante(produtoId: Id)
    | PedidoNaoEncontrado(pedidoId: Id)
    | TransicaoNaoPermitida(de: StatusPedido, para: StatusPedido)
    | PedidoJaEntregue
    // RestauranteService
    | RestauranteJaCadastrado
    | NomeJaCadastrado
    | CategoriaObrigatoria
    | TaxaEntregaNegativa
    // ProdutoService
    | DescricaoObrigatoria
    | PrecoNaoPositivo
    | ProdutoInativo(produtoId: Id)
    // ClienteService
    | EmailObrigatorio
    | EmailJaCadastrado
    | NomeCurto
    // shared by the three entity validators
    | NomeObrigatorio
    // not business errors: a repository lookup by a null id, and a
    // `BigDecimal.add` with a null operand
    | IdNulo
    | NullPointer

  /** The outcome of an operation: a value, or the exception it threw. */
  datatype Result<+T> = Ok(value: T) | Err(error: Error)

  /** The outcome of a validator that returns nothing or throws. */
  datatype Check = Pass | Fail(error: Error)
}
