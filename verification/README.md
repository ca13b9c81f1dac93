# Delivery API order lifecycle, in Dafny

A model of the business core of the delivery-platform backend
(`com.deliverytech.delivery`): the order status state machine
(`StatusPedido`), the order workflow of `PedidoService` (creation with its
ordered checks and total, status change, cancellation, fee-less total), and
the validate-then-persist services for restaurants, products and customers,
including the postal-code delivery fee and the uniqueness of restaurant
names and customer e-mails.

Each repository is an id-keyed table (`Tables.Repository`) whose id
sequence is always ahead of the stored ids. Each service operation is a
pure function from the tables it reads to a `Result`: `Ok` carries the
tables after the write, `Err` carries the business error the Java code
throws. A failed operation returns no tables, so the caller keeps the ones
it had, which is the all-or-nothing behaviour the transactional services
promise. Money is an integer count of cents.

Files:

- `status_pedido.dfy`: the six statuses, the transition relation, the
  adjacency table, and chain lemmas (terminal states, irreflexivity, at
  most four steps, no cycles).
- `common.dfy`: ids, money, nullable values, the error datatype, `Result`.
- `java_text.dfy`: `String.trim()`, `isBlank()`, `length()` (in UTF-16
  code units) and `startsWith`, as the validators use them.
- `tables.dfy`: the repository table with `save` and `delete`.
- `entities.dfy`: customers, restaurants, products, orders, the store.
- `restaurante_service.dfy`, `produto_service.dfy`, `cliente_service.dfy`,
  `pedido_service.dfy`: one module per service.

Behaviour of the code that the model keeps, although a reader might expect
otherwise:

- A restaurant may be stored without a delivery fee, because its validator
  accepts a null fee. Order creation and `calcularTaxaEntrega` then throw a
  `NullPointerException` from `BigDecimal.add`. The model returns
  `Err(NullPointer)` in that case, so these operations fail on more than a
  missing restaurant.
- An order with an empty item list is accepted, and its total is the
  delivery fee alone.
- `cancelarPedido` deletes the order instead of moving it to CANCELADO. It
  accepts every status except ENTREGUE, including SAIU_PARA_ENTREGA and
  CANCELADO, although the transition relation lets neither of those become
  CANCELADO.
- The customer validator measures the name length before trimming, in
  UTF-16 code units. So `" A"` passes and `"A"` fails.

## Model

| member | source | states |
|---|---|---|
| StatusPedido.PodeTransitarPara | src/main/java/com/deliverytech/delivery/enums/StatusPedido.java:21-29 | A transition is allowed exactly when the target is in the adjacency table of the current status. An allowed transition never targets the current status and always moves to a later lifecycle stage. Terminal statuses allow nothing. |
| StatusPedido.TerminaisSemSaida | src/main/java/com/deliverytech/delivery/enums/StatusPedido.java:27 | ENTREGUE and CANCELADO accept no target status. |
| StatusPedido.SaidasIniciais | src/main/java/com/deliverytech/delivery/enums/StatusPedido.java:23-24 | From PENDENTE exactly CONFIRMADO and CANCELADO are allowed; from CONFIRMADO exactly PREPARANDO and CANCELADO. |
| StatusPedido.EmEntregaSoEntrega | src/main/java/com/deliverytech/delivery/enums/StatusPedido.java:26 | SAIU_PARA_ENTREGA can go only to ENTREGUE, so it cannot be cancelled. |
| StatusPedido.CancelavelEmUmPasso | src/main/java/com/deliverytech/delivery/enums/StatusPedido.java:23-26 | CANCELADO is reachable in one step exactly from PENDENTE, CONFIRMADO and PREPARANDO. |
| StatusPedido.EtapaCresceNaCadeia | src/main/java/com/deliverytech/delivery/enums/StatusPedido.java:22-28 | Along any chain of allowed transitions, the lifecycle stage grows by at least one per step. |
| StatusPedido.CadeiaLimitada | src/main/java/com/deliverytech/delivery/enums/StatusPedido.java:22-28 | Every chain of allowed transitions has at most four steps, and fewer when it starts further along. |
| StatusPedido.SemCiclos | src/main/java/com/deliverytech/delivery/enums/StatusPedido.java:22-28 | No chain of one or more allowed transitions returns to its starting status. |
| StatusPedido.CaminhoCompleto | src/main/java/com/deliverytech/delivery/enums/StatusPedido.java:22-26 | The delivery path PENDENTE, CONFIRMADO, PREPARANDO, SAIU_PARA_ENTREGA, ENTREGUE is a valid chain, so the four-step bound is reached. |
| JavaText.Trim | src/main/java/com/deliverytech/delivery/services/RestauranteService.java:144-150 | The trimmed text is a contiguous slice of the input that neither starts nor ends with a character up to U+0020. Everything before and after the slice is a character up to U+0020. It is empty exactly when every input character is up to U+0020. |
| JavaText.JavaLength | src/main/java/com/deliverytech/delivery/services/ClienteService.java:140 | The length counts UTF-16 code units: one per character plus one per character outside the Basic Multilingual Plane, so between one and two per character. |
| JavaText.TestesDeAusencia | src/main/java/com/deliverytech/delivery/services/RestauranteService.java:144-150 | The validators' null-or-empty-after-trim and null-or-blank tests are exactly the negations of "present with a character beyond U+0020" and "present with a non-whitespace character". |
| JavaText.EspacosSemQuebra | src/main/java/com/deliverytech/delivery/services/ProdutoService.java:145-154 | `Character.isWhitespace`, which `isBlank()` uses, accepts space, tab, em space and ideographic space, and refuses the no-break spaces U+00A0, U+2007, U+202F and NUL. |
| JavaText.TrimDiscordaDeIsBlank | src/main/java/com/deliverytech/delivery/services/ProdutoService.java:145-154 | An ideographic space is blank but survives `trim()`, and NUL is removed by `trim()` but is not blank, so the trim-based and the blank-based validators disagree on both. |
| JavaText.StartsWithPorCaractere | src/main/java/com/deliverytech/delivery/services/RestauranteService.java:131-133 | `startsWith` holds exactly when the prefix is no longer than the text and matches it character by character. |
| Tables.Insert | src/main/java/com/deliverytech/delivery/services/RestauranteService.java:46 | Saving a new entity stores it under a fresh id, above every stored id, and leaves every other row as it was. |
| Tables.Put | src/main/java/com/deliverytech/delivery/services/RestauranteService.java:98 | Saving an existing entity replaces only its row; the ids and the id sequence stay the same. |
| Tables.Delete | src/main/java/com/deliverytech/delivery/services/RestauranteService.java:119 | Deleting removes exactly that id and keeps every other row. |
| RestauranteService.ValidarDadosRestaurante | src/main/java/com/deliverytech/delivery/services/RestauranteService.java:143-156 | Passes exactly when name and category are present with a character beyond U+0020 and the fee is absent or not negative. A failure reports the first failed check, in the order name, category, fee. |
| RestauranteService.Cadastrar | src/main/java/com/deliverytech/delivery/services/RestauranteService.java:32-47 | A name already stored fails before validation. Otherwise it succeeds exactly for valid requests and stores the request's fields as a new active restaurant under a fresh id. Name uniqueness is preserved. |
| RestauranteService.Atualizar | src/main/java/com/deliverytech/delivery/services/RestauranteService.java:82-99 | A missing id fails first. A name that differs from the current one and is already stored fails next. Then validation fails with the validator's own error. On success name, category, address and fee are replaced, `ativo` is kept and no other row changes. Name uniqueness is preserved. |
| RestauranteService.Inativar | src/main/java/com/deliverytech/delivery/services/RestauranteService.java:104-110 | Fails exactly on a missing id. Otherwise it sets `ativo` to false and changes nothing else. Name uniqueness is preserved. |
| RestauranteService.InativarIdempotente | src/main/java/com/deliverytech/delivery/services/RestauranteService.java:104-110 | Deactivating a restaurant twice gives the same store as deactivating it once. |
| RestauranteService.Deletar | src/main/java/com/deliverytech/delivery/services/RestauranteService.java:115-120 | Fails exactly on a missing id. Otherwise it removes that restaurant and keeps every other row. Name uniqueness is preserved. |
| RestauranteService.CalcularTaxaEntrega | src/main/java/com/deliverytech/delivery/services/RestauranteService.java:125-138 | A missing restaurant fails, and a stored null fee throws. Otherwise the fee is the base plus 5 when the postal code starts with "01", plus 8 when it starts with "02", and plus 10 otherwise, always between base + 5 and base + 10. |
| RestauranteService.CepVazioPagaMaisCaro | src/main/java/com/deliverytech/delivery/services/RestauranteService.java:131-137 | An empty postal code gets the surcharge of 10. |
| ProdutoService.ValidarDadosProduto | src/main/java/com/deliverytech/delivery/services/ProdutoService.java:144-157 | Passes exactly when name, description and category each hold a non-whitespace character and the price is present and above zero. A failure reports the first failed check, in the order name, description, price, category. |
| ProdutoService.CadastrarProduto | src/main/java/com/deliverytech/delivery/services/ProdutoService.java:29-44 | A null or missing restaurant fails before validation, and an invalid request then fails with the validator's own error. On success the new product is available, belongs to that restaurant and goes under a fresh id. Positive prices are preserved across the table. |
| ProdutoService.AtualizarProduto | src/main/java/com/deliverytech/delivery/services/ProdutoService.java:95-116 | A missing product fails, then validation with the validator's own error. The restaurant changes only when the request names a different one. A different restaurant that is not stored fails with restaurant-not-found, and nothing changes. On success the other fields come from the request and no other row changes. Positive prices are preserved. |
| ProdutoService.AlterarDisponibilidade | src/main/java/com/deliverytech/delivery/services/ProdutoService.java:121-127 | Fails exactly on a missing id. Otherwise only that product's availability changes, to the given value. |
| ProdutoService.AlterarDisponibilidadeIdempotente | src/main/java/com/deliverytech/delivery/services/ProdutoService.java:121-127 | Setting the same availability twice gives the same store as setting it once. |
| ProdutoService.BuscarProdutoPorId | src/main/java/com/deliverytech/delivery/services/ProdutoService.java:81-90 | A missing product and an unavailable product fail with different errors. Otherwise the stored product is returned unchanged. |
| ProdutoService.BuscarProdutoCadastrado | src/main/java/com/deliverytech/delivery/services/ProdutoService.java:29-44 | A product just registered is found by the lookup under its new id, with the request's name, price and restaurant. |
| ProdutoService.BuscarAposAlterarDisponibilidade | src/main/java/com/deliverytech/delivery/services/ProdutoService.java:81-90 | After availability is switched off the lookup refuses the product as unavailable; after it is switched on the lookup returns it. |
| ProdutoService.Excluir | src/main/java/com/deliverytech/delivery/services/ProdutoService.java:72-76 | Fails exactly on a missing id. Otherwise it removes that product and keeps every other row. |
| ClienteService.ValidarDadosCliente | src/main/java/com/deliverytech/delivery/services/ClienteService.java:131-143 | Passes exactly when name and e-mail are present with a character beyond U+0020 and the untrimmed name has at least two UTF-16 code units. A failure reports the first failed check, in the order name, e-mail, length. |
| ClienteService.ComprimentoAntesDoTrim | src/main/java/com/deliverytech/delivery/services/ClienteService.java:140-142 | `" A"` passes and `"A"` fails the name check, and a single emoji passes it, because the length is measured before trimming and in UTF-16 code units. |
| ClienteService.Cadastrar | src/main/java/com/deliverytech/delivery/services/ClienteService.java:26-42 | Validation comes before the e-mail check, and a stored e-mail fails. On success the new customer is active, stamped with the given time and stored under a fresh id. E-mail uniqueness is preserved. |
| ClienteService.Atualizar | src/main/java/com/deliverytech/delivery/services/ClienteService.java:77-94 | Validation comes first, then the lookup, then the e-mail check, which applies only to a changed e-mail and fails with e-mail-already-registered when another customer has it. On success name, e-mail, phone and address are replaced, `ativo` and `dataCadastro` are kept, and no other row changes. E-mail uniqueness is preserved. |
| ClienteService.AlterarStatus | src/main/java/com/deliverytech/delivery/services/ClienteService.java:99-105 | Fails exactly on a missing id. Otherwise it sets `ativo` to the given value and changes nothing else. |
| ClienteService.Inativar | src/main/java/com/deliverytech/delivery/services/ClienteService.java:110-116 | Fails exactly on a missing id. Otherwise it sets `ativo` to false and changes nothing else. E-mail uniqueness is preserved. |
| ClienteService.InativarIdempotente | src/main/java/com/deliverytech/delivery/services/ClienteService.java:99-116 | Deactivating equals setting the status to false, and deactivating twice equals deactivating once. |
| PedidoService.ResolverItens | src/main/java/com/deliverytech/delivery/services/PedidoService.java:66-77 | Succeeds exactly when every item is a stored, available product of the restaurant. It then returns those products in list order, one per id. Otherwise the first refused item decides the error: not found, then unavailable, then belonging to another restaurant. |
| PedidoService.BuscarTodos | src/main/java/com/deliverytech/delivery/services/PedidoService.java:161-164 | Succeeds exactly when every id is stored, returning the products in list order. Otherwise the first missing id is reported. |
| PedidoService.SomaConcatenada | src/main/java/com/deliverytech/delivery/services/PedidoService.java:80-82 | The left-fold price sum splits over concatenated product lists. |
| PedidoService.SomaIgualValor | src/main/java/com/deliverytech/delivery/services/PedidoService.java:80-82 | The stream's left-fold sum over the resolved products equals the reference total of the id list, with repeats counted. |
| PedidoService.ValorAoMenosUmPorItem | src/main/java/com/deliverytech/delivery/services/PedidoService.java:80-82 | When every stored price is positive, the reference total of an id list is at least one cent per item. |
| PedidoService.CriarPedido | src/main/java/com/deliverytech/delivery/services/PedidoService.java:42-99 | The checks fail in this order: customer missing or inactive, restaurant missing or inactive, item list unparseable, first refused item. When all of them pass, a restaurant stored without a fee fails with the null-pointer error. It succeeds exactly when all of them pass and the fee is not null. Then only the order table changes, by one new CONFIRMADO order for the given customer and restaurant. Its items are the requested ids in order, all belonging to that restaurant, and its total is the item prices with repeats plus the fee. |
| PedidoService.CenarioPedidoConfirmado | src/main/java/com/deliverytech/delivery/services/PedidoService.java:80-98 | Products of 30.00 and 6.00 from a restaurant with a 5.00 fee give a CONFIRMADO order of 41.00. |
| PedidoService.BuscarPorId | src/main/java/com/deliverytech/delivery/services/PedidoService.java:104-107 | Fails exactly on a missing id. Otherwise it returns the stored order. |
| PedidoService.BuscarPedidoCriado | src/main/java/com/deliverytech/delivery/services/PedidoService.java:104-107 | Looking up a created order finds it CONFIRMADO with the request's customer, restaurant and items, and finds every earlier order unchanged. |
| PedidoService.AtualizarStatus | src/main/java/com/deliverytech/delivery/services/PedidoService.java:120-133 | Succeeds exactly when the order exists and the new status is in its current status's adjacency table. Otherwise it reports a missing order or the refused transition. On success only that order's status changes. |
| PedidoService.AtualizacoesLimitadas | src/main/java/com/deliverytech/delivery/services/PedidoService.java:120-133 | A run of successful status updates on one order has at most four steps, fewer when the order starts further along, and leaves the last requested status. |
| PedidoService.CenariosDeTransicao | src/main/java/com/deliverytech/delivery/services/PedidoService.java:120-133 | PREPARANDO to ENTREGUE is refused, while PREPARANDO to SAIU_PARA_ENTREGA to ENTREGUE succeeds. |
| PedidoService.CancelarPedido | src/main/java/com/deliverytech/delivery/services/PedidoService.java:138-147 | A missing order and a delivered order fail. Any other order is removed, and every other row is kept. |
| PedidoService.CancelamentoIgnoraTransicoes | src/main/java/com/deliverytech/delivery/services/PedidoService.java:138-147 | An order out for delivery or already cancelled can be cancelled, although the status relation refuses CANCELADO for both. |
| PedidoService.CalcularTotal | src/main/java/com/deliverytech/delivery/services/PedidoService.java:152-169 | Fails only on an unparseable list or, at the first such id, on a missing product. Otherwise it returns the reference total with no fee and no availability or restaurant check. |
| PedidoService.TotalDoPedido | src/main/java/com/deliverytech/delivery/services/PedidoService.java:80-84 | A created order's total equals `calcularTotal` of the same request plus the restaurant's delivery fee. |
| PedidoService.TotalSobreATaxa | src/main/java/com/deliverytech/delivery/services/PedidoService.java:80-84 | An order with no items costs exactly the fee. With positive prices, each item adds at least one cent. |

## Left out

- HTTP controllers, `HealthController`, response DTO conversion and Bean Validation annotations on the request DTOs: transport concerns. The services are modelled as they behave when called directly.
- Report and search queries (`gerarRelatorioVendas`, `pedidosComValorAcima`, `relatorioPorPeriodoEStatus`, `buscarPedidosPorPeriodo`, `produtosMaisVendidos`, `rankingClientesPorPedidos`, `listarPorCliente`, `listarAtivos`, `listarDisponiveis`, `buscarPorCategoria`, `buscarPorEmail`, `buscarPorNome`, `listarTodos`, `buscarProdutosPorRestaurante`, and the customer and restaurant `buscarPorId`): their filtering and ordering live in the persistence framework's derived queries, not in service code.
- JSON parsing of the `itens` text: the request holds the parse outcome, a list of ids or `Malformado`. Two outcomes of parsing are not modelled: a JSON `null` inside the list, and the text `null`, which parses to a null list on which `criarPedido` and `calcularTotal` throw a `NullPointerException` when they stream it.
- Null ids: the request ids of orders and the path ids are plain integers. Only the product request's restaurant id is nullable, because `cadastrarProduto` and `atualizarProduto` branch on it.
- A null `disponivel` in a product update request is not modelled. The entity classes are not part of this model, so it is unknown whether that null would be stored or would throw.
- A null postal code in `calcularTaxaEntrega` is not modelled.
- Unpaired UTF-16 surrogates, which a Java string can hold (for example from a JSON `"\uD800"` escape), are not modelled: text is a sequence of Unicode scalar values, so `JavaLength`, `Trim` and `IsBlank` never see them.
- `BigDecimal` values are integer cents. Amounts with more than two decimal places are not represented, and scale is not tracked.
- `LocalDateTime.now()` for `dataCadastro` is an argument of `ClienteService.Cadastrar`. Order timestamps are copied from the request.
- Exception messages are not modelled; each message becomes an error constructor. Constructors about one record carry that record's id, also where the message names the record instead: `ProdutoIndisponivel` and `ProdutoDeOutroRestaurante` carry the product id, while their messages carry the product name.
- The restaurant rating and any other entity column the services never read or write. The entity classes are not part of this model, and their fields are taken from the setters the services call.
- Foreign-key behaviour of the relational store, for example deleting a restaurant that still has products, or a product that orders still reference. So is any unique constraint the database itself may enforce. The model deletes the row as the service asks.
- Concurrency and transaction isolation between requests. Each operation is one atomic step.
- `DataLoader` seeding.

